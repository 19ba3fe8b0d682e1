/** The task board's form state machine
    (frontend/src/features/tasks/components/TaskBoard.tsx): which form is
    open, what its inputs hold, and which hook call a submitted form makes.

    The board renders one `TaskForm` without a `key` while the form is open,
    so switching an open form to another mode or task re-renders the same
    component and its `useState` fields keep their values; only a form that
    mounts after being closed starts from its initial fields. The flag
    `keyed` selects between that behaviour (`false`, the code as written)
    and a form remounted whenever the task it is opened on changes (`true`). */
module TaskBoard {
  import opened Wrappers
  import opened Types
  import opened Text
  import TaskForm
  import TasksState
  import TasksService

  /** `FormState`: the form is closed, creating, or editing a task. */
  datatype FormState = Closed | Creating | Editing(task: Task)

  /** The board: the form state, the inputs of the open form (meaningless
      while it is closed), and the number of submits whose awaited hook
      call has not returned yet. */
  datatype Board = Board(form: FormState, fields: TaskForm.FormFields, pending: nat)

  /** The form starts closed, with nothing in flight. */
  const InitialBoard: Board := Board(Closed, TaskForm.InitialFields(None, ""), 0)

  /** What the user does to the board's form, and the return of an awaited
      hook call. */
  datatype Event =
    | CreateClicked                          // handleCreate
    | EditClicked(task: Task)                // handleEdit, from any task's Edit button
    | Typed(fields: TaskForm.FormFields)     // the open form's inputs change
    | SubmitClicked                          // the form's submit, then handleFormSubmit
    | CallReturned                           // an awaited createTask/updateTask returns
    | Cancelled                              // handleCancel

  /** The hook call an event makes. */
  datatype Call = NoCall | CreateTask(payload: FormPayload) | UpdateTask(id: string, payload: FormPayload)

  /** The task an open form is initialised from: the edited one, if any. */
  function FormInitialTask(state: FormState): (t: Option<Task>)
    ensures t.Some? <==> state.Editing?
    ensures state.Editing? ==> t.value == state.task
  {
    if state.Editing? then Some(state.task) else None
  }

  /** The form's default date: the filter's date unless it is null, else
      today. An empty filter date is kept (`??`, not `||`). */
  function FormDefaultDate(filters: TaskFilters, today: string): (d: string)
    ensures filters.date.Some? ==> d == filters.date.value
    ensures filters.date.None? ==> d == today
  {
    filters.date.GetOr(today)
  }

  /** Two open forms a key per task would not tell apart: both create
      forms, or both edit forms of the same task id. */
  predicate SameForm(a: FormState, b: FormState) {
    (a.Creating? && b.Creating?) || (a.Editing? && b.Editing? && a.task.id == b.task.id)
  }

  /** Whether opening `next` over `current` mounts a fresh form: always
      after a closed form, and with `keyed` also when the task changes. */
  predicate Remounts(current: FormState, next: FormState, keyed: bool) {
    current.Closed? || (keyed && !SameForm(current, next))
  }

  /** The board's reaction to an event, with `defaultDate` the date a new
      create form starts on.
      - Create and edit open the matching form. Its inputs start from the
        initial fields when the form mounts and are kept otherwise.
      - Typing changes the inputs of an open form.
      - Submit does nothing when the form is closed, the scheduled date is
        cleared (the browser blocks a `required` input left empty) or the
        title is blank. Otherwise it calls `createTask` in create mode or `updateTask` with
        the edited id in edit mode, and leaves the form open while the call
        is awaited.
      - The return of an awaited call closes the form, whatever is open.
      - Cancel closes the form. */
  function Handle(b: Board, event: Event, defaultDate: string, keyed: bool): (r: (Board, Call))
    ensures event.CreateClicked? || event.EditClicked? ==>
      var form := if event.CreateClicked? then Creating else Editing(event.task);
      && r.0.form == form && r.0.pending == b.pending && r.1 == NoCall
      && (Remounts(b.form, form, keyed) ==>
            r.0.fields == TaskForm.InitialFields(FormInitialTask(form), defaultDate))
      && (!Remounts(b.form, form, keyed) ==> r.0.fields == b.fields)
    ensures event.Typed? ==>
      && r.1 == NoCall
      && (b.form.Closed? ==> r.0 == b)
      && (!b.form.Closed? ==> r.0 == b.(fields := event.fields))
    ensures event.SubmitClicked? ==>
      && (b.form.Closed? || TaskForm.SubmitPressed(b.fields).None? ==> r == (b, NoCall))
      && (!b.form.Closed? && TaskForm.SubmitPressed(b.fields).Some? ==>
            && r.0 == b.(pending := b.pending + 1)
            && (b.form.Creating? ==> r.1 == CreateTask(TaskForm.Submit(b.fields).value))
            && (b.form.Editing? ==> r.1 == UpdateTask(b.form.task.id, TaskForm.Submit(b.fields).value)))
    ensures event.CallReturned? ==>
      && r.1 == NoCall
      && (b.pending == 0 ==> r.0 == b)
      && (b.pending > 0 ==> r.0 == b.(form := Closed, pending := b.pending - 1))
    ensures event.Cancelled? ==> r == (b.(form := Closed), NoCall)
  {
    match event
    case CreateClicked => (Open(b, Creating, defaultDate, keyed), NoCall)
    case EditClicked(t) => (Open(b, Editing(t), defaultDate, keyed), NoCall)
    case Typed(f) => (if b.form.Closed? then b else b.(fields := f), NoCall)
    case SubmitClicked =>
      if b.form.Closed? then (b, NoCall)
      else
        (match TaskForm.SubmitPressed(b.fields)
         case None => (b, NoCall)
         case Some(p) =>
           var call := if b.form.Creating? then CreateTask(p) else UpdateTask(b.form.task.id, p);
           (b.(pending := b.pending + 1), call))
    case CallReturned =>
      if b.pending == 0 then (b, NoCall) else (b.(form := Closed, pending := b.pending - 1), NoCall)
    case Cancelled => (b.(form := Closed), NoCall)
  }

  /** Opens `form` over the board, mounting fresh inputs when it remounts. */
  function Open(b: Board, form: FormState, defaultDate: string, keyed: bool): Board
    requires !form.Closed?
  {
    if Remounts(b.form, form, keyed) then
      Board(form, TaskForm.InitialFields(FormInitialTask(form), defaultDate), b.pending)
    else
      b.(form := form)
  }

  /** Runs a sequence of events from a board, collecting the calls made. */
  function Run(b: Board, events: seq<Event>, defaultDate: string, keyed: bool): (r: (Board, seq<Call>))
    ensures |r.1| == |events|
    decreases |events|
  {
    if |events| == 0 then (b, [])
    else
      var (next, call) := Handle(b, events[0], defaultDate, keyed);
      var (last, calls) := Run(next, events[1..], defaultDate, keyed);
      (last, [call] + calls)
  }

  /** An update call is only ever made for a task an edit was opened on:
      every update call of a run names the id of the task the starting board
      was editing, or of a task an earlier `EditClicked` carried. */
  lemma {:induction false} UpdatesTargetEditedTasks(b: Board, events: seq<Event>, defaultDate: string, keyed: bool, i: nat)
    requires i < |events|
    requires Run(b, events, defaultDate, keyed).1[i].UpdateTask?
    ensures var id := Run(b, events, defaultDate, keyed).1[i].id;
      (b.form.Editing? && b.form.task.id == id)
      || exists j :: 0 <= j < i && events[j].EditClicked? && events[j].task.id == id
    decreases |events|
  {
    var (next, call) := Handle(b, events[0], defaultDate, keyed);
    var id := Run(b, events, defaultDate, keyed).1[i].id;
    StepSources(b, events[0], defaultDate, keyed);
    if i > 0 {
      assert Run(next, events[1..], defaultDate, keyed).1[i - 1] == Run(b, events, defaultDate, keyed).1[i];
      UpdatesTargetEditedTasks(next, events[1..], defaultDate, keyed, i - 1);
      if !(next.form.Editing? && next.form.task.id == id) {
        var j :| 0 <= j < i - 1 && events[1..][j].EditClicked? && events[1..][j].task.id == id;
        assert events[j + 1] == events[1..][j];
      } else if !(b.form.Editing? && b.form.task.id == id) {
        assert events[0].EditClicked? && events[0].task.id == id;
      }
    }
  }

  /** One step of the board: an update call names the task being edited,
      and an edit form after the step is the one before it or the one the
      event clicked. */
  lemma StepSources(b: Board, event: Event, defaultDate: string, keyed: bool)
    ensures var (next, call) := Handle(b, event, defaultDate, keyed);
      && (call.UpdateTask? ==> b.form.Editing? && call.id == b.form.task.id)
      && (next.form.Editing? ==> next.form == b.form || (event.EditClicked? && next.form == Editing(event.task)))
  {
  }

  /** The form is shown exactly when the state is not closed. */
  predicate FormVisible(state: FormState) {
    !state.Closed?
  }

  /** Create and edit show the form; typing, a submit and a return with
      nothing in flight leave it as it was; cancel and a returning call
      hide it. */
  lemma FormShownWhileOpen(b: Board, event: Event, defaultDate: string, keyed: bool)
    ensures FormVisible(Handle(b, event, defaultDate, keyed).0.form) <==>
      || event.CreateClicked? || event.EditClicked?
      || (FormVisible(b.form) && (event.Typed? || event.SubmitClicked? || (event.CallReturned? && b.pending == 0)))
  {
  }

  /** The fields a form opened over a closed board shows: a create form
      starts empty on the default date, an edit form starts from the task
      that was clicked. */
  lemma OpenedFormFields(b: Board, event: Event, filters: TaskFilters, today: string, keyed: bool)
    requires b.form.Closed?
    requires event.CreateClicked? || event.EditClicked?
    ensures var f := Handle(b, event, FormDefaultDate(filters, today), keyed).0.fields;
      && (event.CreateClicked? ==>
            f.title == "" && f.description == "" && f.dueDate == "" && f.priority == Medium
            && f.selectedTagKeys == [] && f.scheduledDate == filters.date.GetOr(today))
      && (event.EditClicked? ==>
            f.title == event.task.title && f.scheduledDate == event.task.scheduledDate
            && f.priority == event.task.priority && f.selectedTagKeys == event.task.tagIds)
  {
  }

  /** As written, an edit form switched to another task keeps the first
      task's inputs: editing `a`, then clicking Edit on `c` and saving sends
      `a`'s title to `c`'s id. */
  lemma StaleFieldsSentToOtherTask(a: Task, c: Task, defaultDate: string)
    requires a.id != c.id && !AllSpace(a.title) && a.scheduledDate != ""
    ensures var calls := Run(InitialBoard, [EditClicked(a), EditClicked(c), SubmitClicked], defaultDate, false).1;
      && calls[2].UpdateTask?
      && calls[2].id == c.id
      && calls[2].payload.title == Trim(a.title)
  {
    var b1 := Handle(InitialBoard, EditClicked(a), defaultDate, false).0;
    var b2 := Handle(b1, EditClicked(c), defaultDate, false).0;
    assert b2.form == Editing(c) && b2.fields == TaskForm.InitialFields(Some(a), defaultDate);
    var call := Handle(b2, SubmitClicked, defaultDate, false).1;
    assert call == UpdateTask(c.id, TaskForm.Submit(b2.fields).value);
    RunCons(b2, SubmitClicked, [], defaultDate, false);
    RunCons(b1, EditClicked(c), [SubmitClicked], defaultDate, false);
    RunCons(InitialBoard, EditClicked(a), [EditClicked(c), SubmitClicked], defaultDate, false);
  }

  /** With a form keyed by the task it edits, clicking Edit on a task other
      than the one being edited shows that task's inputs, whatever was open
      before, and saving them unchanged updates that task with its own
      fields. */
  lemma KeyedEditSendsClickedTask(b: Board, t: Task, defaultDate: string)
    requires !(b.form.Editing? && b.form.task.id == t.id)
    ensures var shown := Handle(b, EditClicked(t), defaultDate, true).0;
      && shown.fields == TaskForm.InitialFields(Some(t), defaultDate)
      && (!AllSpace(t.title) && t.scheduledDate != "" ==>
            Handle(shown, SubmitClicked, defaultDate, true).1
              == UpdateTask(t.id, TaskForm.Submit(TaskForm.InitialFields(Some(t), defaultDate)).value))
  {
  }

  /** Saving twice before the first call returns makes two identical
      `createTask` calls: the form stays open while the call is awaited. */
  lemma DoubleSubmitCreatesTwice(b: Board, defaultDate: string, keyed: bool)
    requires b.form.Creating? && !AllSpace(b.fields.title) && b.fields.scheduledDate != ""
    ensures var p := TaskForm.Submit(b.fields).value;
      Run(b, [SubmitClicked, SubmitClicked], defaultDate, keyed).1 == [CreateTask(p), CreateTask(p)]
  {
    var b1 := b.(pending := b.pending + 1);
    var b2 := b1.(pending := b1.pending + 1);
    SubmitKeepsFormOpen(b, defaultDate, keyed);
    SubmitKeepsFormOpen(b1, defaultDate, keyed);
    var c := CreateTask(TaskForm.Submit(b.fields).value);
    assert Run(b2, [], defaultDate, keyed) == (b2, []);
    RunCons(b1, SubmitClicked, [], defaultDate, keyed);
    assert Run(b1, [SubmitClicked], defaultDate, keyed).1 == [c];
    RunCons(b, SubmitClicked, [SubmitClicked], defaultDate, keyed);
  }

  /** An edit form opened while a create is awaited is closed when the
      create returns. */
  lemma ReturnClosesFormOpenedMeanwhile(b: Board, t: Task, defaultDate: string, keyed: bool)
    requires b.form.Creating? && !AllSpace(b.fields.title) && b.fields.scheduledDate != ""
    ensures Run(b, [SubmitClicked, EditClicked(t), CallReturned], defaultDate, keyed).0.form == Closed
  {
    var b1 := b.(pending := b.pending + 1);
    var b2 := Open(b1, Editing(t), defaultDate, keyed);
    SubmitKeepsFormOpen(b, defaultDate, keyed);
    assert Handle(b1, EditClicked(t), defaultDate, keyed).0 == b2;
    assert Run(b2, [CallReturned], defaultDate, keyed).0.form == Closed;
    RunCons(b1, EditClicked(t), [CallReturned], defaultDate, keyed);
    RunCons(b, SubmitClicked, [EditClicked(t), CallReturned], defaultDate, keyed);
  }

  /** A submit with a valid title and a date leaves the form open and
      counts one more call in flight. */
  lemma SubmitKeepsFormOpen(b: Board, defaultDate: string, keyed: bool)
    requires !b.form.Closed? && !AllSpace(b.fields.title) && b.fields.scheduledDate != ""
    ensures Handle(b, SubmitClicked, defaultDate, keyed).0 == b.(pending := b.pending + 1)
    ensures b.form.Creating? ==>
      Handle(b, SubmitClicked, defaultDate, keyed).1 == CreateTask(TaskForm.Submit(b.fields).value)
  {
  }

  /** Saving a form whose scheduled date was cleared makes no call, and the
      form stays open: no call is awaited, so nothing returns to close it. */
  lemma ClearedDateKeepsFormOpen(b: Board, defaultDate: string, keyed: bool)
    requires !b.form.Closed? && b.pending == 0 && b.fields.scheduledDate == ""
    ensures Run(b, [SubmitClicked, CallReturned], defaultDate, keyed) == (b, [NoCall, NoCall])
  {
    assert Handle(b, SubmitClicked, defaultDate, keyed) == (b, NoCall);
    assert Handle(b, CallReturned, defaultDate, keyed) == (b, NoCall);
    assert Run(b, [], defaultDate, keyed) == (b, []);
    RunCons(b, CallReturned, [], defaultDate, keyed);
    assert [CallReturned] + [] == [CallReturned] && [NoCall] + [] == [NoCall];
    assert Run(b, [CallReturned], defaultDate, keyed) == (b, [NoCall]);
    RunCons(b, SubmitClicked, [CallReturned], defaultDate, keyed);
    assert [SubmitClicked] + [CallReturned] == [SubmitClicked, CallReturned];
    assert [NoCall] + [NoCall] == [NoCall, NoCall];
  }

  /** A run starting with `e` is its first step followed by the rest. */
  lemma RunCons(b: Board, e: Event, events: seq<Event>, defaultDate: string, keyed: bool)
    ensures var (next, call) := Handle(b, e, defaultDate, keyed);
      Run(b, [e] + events, defaultDate, keyed)
        == (Run(next, events, defaultDate, keyed).0, [call] + Run(next, events, defaultDate, keyed).1)
  {
    assert ([e] + events)[1..] == events;
  }

  /** Clearing the description of a task in the edit form does not clear it
      on the server: the form sends no description field, and the service
      keeps what it had. */
  lemma ClearedDescriptionIsKept(store: TasksService.Store, t: Task, f: TaskForm.FormFields, pending: nat,
                                 defaultDate: string, keyed: bool, now: Timestamp)
    requires t.id in store && store[t.id] == t
    requires !AllSpace(f.title) && f.scheduledDate != "" && AllSpace(f.description)
    ensures var call := Handle(Board(Editing(t), f, pending), SubmitClicked, defaultDate, keyed).1;
      && call.UpdateTask? && call.id == t.id
      && var u := TasksService.Update(store, call.id, TasksState.UpdateRequest(call.payload), now);
      u.result.Ok? && u.result.value.description == t.description
  {
  }
}
