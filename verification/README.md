# Task planner — a Dafny model of its task logic

This is a task-planning application: a NestJS service stores time-boxed
tasks (title, optional description, status, priority, scheduled date,
optional due date, tag keys, timestamps) and a React client lists, filters,
creates, edits, toggles and deletes them. This project models the pure logic
of both halves and proves what it promises:

- **Task service** (`TasksService`): the task table is a `map<string, Task>`.
  `findAll` builds a Prisma `where` clause (an exact `date` wins over an
  inclusive `from`/`to` range; `status` is an extra conjunct) and returns the
  selected tasks sorted by scheduled date ascending, then creation time
  descending. `findOne`/`ensureExists` throw NotFound for an unknown id;
  `create` fills the defaults; `update` merges a partial patch; `remove`
  deletes. Every operation that writes returns the table afterwards with
  its result, so "a NotFound leaves the table unchanged" is stated
  directly; the reads are functions of the table and cannot change it.
- **Boundary validation** (`CreateTaskValidation`, `QueryTasksValidation`):
  the class-validator constraints of the two DTOs as total predicates, with
  the list of failing properties. A length is what class-validator's
  `Length` measures: one per character, whatever its plane, with the
  variation selectors U+FE0E and U+FE0F not counted.
- **Client state** (`TasksState`): default filters, the filtered view, the
  status cycle of `toggleStatus`, the request bodies sent, and the list
  updates after a successful create, update and delete.
- **UI decisions** (`TaskForm`, `TaskBoard`, `TaskFiltersPanel`,
  `TaskItem`): the form's initial fields, tag toggling and submit
  normalisation; the board's closed/create/edit state machine, with the
  inputs the open form holds and the submits still awaited; the filter
  panel's updates and options; the item's labels, chips and overdue guard.
- **HTTP helpers** (`ApiClient`): `buildUrl` and the decisions of
  `handleJsonOrThrow` and `ensureOkOrThrow` over an abstract response.

Shared records (`Types`) mirror `frontend/src/shared/types.ts`; `Text` holds
the JavaScript string semantics used (`trim`, `startsWith`, the `Length`
measure, string order) and `Seqs` the `filter`/subsequence facts.

Modelling choices:

- Dates are `YYYY-MM-DD` strings compared in string order, as the Prisma
  string filter does. Timestamps are naturals. A new task's id (`freshId`,
  required to be unused) and the current instant (`now`, `today`) are
  parameters.
- JavaScript truthiness is kept where the code uses it: an empty `date`,
  `from`, `to` or `status` query parameter is ignored by the service, and an
  empty filter date is ignored by the client's filtered view (`Present`). The
  board's default date uses `??`, so there an empty date is kept.
- The service receives the body after validation, with `priority` and
  `status` read as enum values (`CreateTaskValidation.Validate`). `tagIds` stays
  optional there, because the service itself defaults a missing list to `[]`.
- The client's tag filter is a string with the `all` sentinel, as in the
  code; a tag whose key is `all` cannot be filtered on.
- The service code and its unit tests disagree. The tests in
  `backend/src/tasks/tasks.service.spec.ts` expect tag lookup, `taskTag`
  association rows, a `$transaction`, an `id=…` NotFound message and a
  single `createdAt` sort. The service has none of these: it throws
  `'Task not found'`, stores `tagIds` verbatim and sorts on two keys. The
  model follows the service code.
- Behaviour worth knowing, proved here: a failed response never surfaces
  the server's `message` (the `throw` inside the `try` is caught by the empty
  `catch`); and clearing a task's description in the edit form does not
  clear it on the server, because the form sends `undefined`, which is
  dropped from the JSON body, and the update keeps absent fields.
- The board renders its form without a `key`, so the form's inputs are set
  only when it mounts after being closed (see Findings). `TaskBoard.Handle`
  takes a flag `keyed`: `false` is the code as written, `true` a form keyed
  by the task it edits. The board lemmas other than the two findings hold
  for both.

## Model

| member | source | states |
|---|---|---|
| Types.StatusName | frontend/src/shared/types.ts:1 | each status has a wire name among the three allowed strings, and parsing that name gives the status back |
| Types.ParseStatus | backend/src/tasks/dto/create-task.dto.ts:3 | a string is read as a status exactly when it is one of `planned`, `in_progress`, `done` |
| Types.PriorityName | frontend/src/shared/types.ts:2 | each priority has a wire name among the three allowed strings, and parsing it gives the priority back |
| Types.ParsePriority | backend/src/tasks/dto/create-task.dto.ts:4 | a string is read as a priority exactly when it is one of `low`, `medium`, `high` |
| Types.ParseStatusRoundTrip | backend/src/tasks/dto/create-task.dto.ts:3 | an allowed status string survives parse-then-print unchanged |
| Types.ParsePriorityRoundTrip | backend/src/tasks/dto/create-task.dto.ts:4 | an allowed priority string survives parse-then-print unchanged |
| Text.CharLength | backend/src/tasks/dto/create-task.dto.ts:8 | the length `Length` checks is at most the character count, and equals it for text without variation selectors |
| Text.CharLengthConcat | backend/src/tasks/dto/create-task.dto.ts:8 | the measured length of a concatenation is the sum of the parts' lengths |
| Text.Trim | frontend/src/features/tasks/components/TaskForm.tsx:38 | a trimmed string has no white space at either end and is empty exactly when the input is all white space |
| Text.TrimIsSlice | frontend/src/features/tasks/components/TaskForm.tsx:40-42 | the trimmed string is a contiguous slice of the input with only white space around it |
| Text.TrimIdempotent | frontend/src/features/tasks/components/TaskForm.tsx:40-42 | trimming twice equals trimming once |
| Text.LexLeReflexive | backend/src/tasks/tasks.service.ts:20-25 | every date is within an inclusive `gte`/`lte` bound equal to itself |
| Text.LexLeAntisymmetric | backend/src/tasks/tasks.service.ts:34 | two dates each ordered before the other are equal |
| Text.LexLeTransitive | backend/src/tasks/tasks.service.ts:34 | the string order on dates is transitive |
| Text.LexLeTotal | backend/src/tasks/tasks.service.ts:34 | any two dates are ordered one way or the other |
| CreateTaskValidation.Violations | backend/src/tasks/dto/create-task.dto.ts:6-37 | a property is reported exactly when it breaks its constraint, and nothing is reported exactly when the body is valid |
| CreateTaskValidation.Validate | backend/src/tasks/dto/create-task.dto.ts:6-37 | a body is accepted iff every constraint holds; an accepted body reaches the service with the same fields and its enum strings read as enum values; a rejected one yields its non-empty violation list |
| CreateTaskValidation.TitleLengthBounds | backend/src/tasks/dto/create-task.dto.ts:7-9 | an accepted title has at least one character, and a title without variation selectors is accepted exactly at 1 to 200 characters, from any plane |
| CreateTaskValidation.AstralCharactersCountOnce | backend/src/tasks/dto/create-task.dto.ts:7-9 | a title of 200 characters outside the Basic Multilingual Plane is accepted |
| CreateTaskValidation.VariationSelectorsNotCounted | backend/src/tasks/dto/create-task.dto.ts:7-9 | appending U+FE0E or U+FE0F never changes whether a title is accepted, and a title of one selector alone is rejected as empty |
| CreateTaskValidation.DateNotCalendarChecked | backend/src/tasks/dto/create-task.dto.ts:16-18 | a 10-character non-date such as `2025-13-45` passes the date constraint |
| CreateTaskValidation.NullDueDateAndNoTagsAccepted | backend/src/tasks/dto/create-task.dto.ts:11-36 | a body with null description, due date and status and an empty tag list is valid when its required fields are |
| CreateTaskValidation.MissingTagIdsRejected | backend/src/tasks/dto/create-task.dto.ts:34-36 | a body without `tagIds` is rejected, naming `tagIds` |
| QueryTasksValidation.Violations | backend/src/tasks/dto/query-tasks.dto.ts:5-25 | a parameter is reported exactly when it breaks its constraint; nothing is reported exactly when the query is valid |
| QueryTasksValidation.EmptyQueryValid | backend/src/tasks/dto/query-tasks.dto.ts:5-25 | the query with no parameters is valid |
| QueryTasksValidation.SentinelAndEmptyRejected | backend/src/tasks/dto/query-tasks.dto.ts:6-24 | the client's `all` status and an empty `date` parameter are rejected |
| QueryTasksValidation.InvertedRangeAccepted | backend/src/tasks/dto/query-tasks.dto.ts:11-19 | a query whose `from` lies after its `to` is valid |
| TasksService.ExactDateWins | backend/src/tasks/tasks.service.ts:16-17 | with a date, a task is selected iff it is scheduled on that date and meets the status criterion, and `from`/`to` make no difference |
| TasksService.RangeWithoutDate | backend/src/tasks/tasks.service.ts:18-30 | without a date, `from` and `to` are inclusive bounds applied only when given, combined with the status criterion |
| TasksService.EmptyQuerySelectsAll | backend/src/tasks/tasks.service.ts:13-35 | the empty query selects every task |
| TasksService.InvertedRangeSelectsNothing | backend/src/tasks/tasks.service.ts:18-26 | a range whose lower bound lies above its upper bound selects no task |
| TasksService.PrecedesTransitive | backend/src/tasks/tasks.service.ts:34 | the two-key sort order (date ascending, creation time descending) is transitive |
| TasksService.Insert | backend/src/tasks/tasks.service.ts:34 | inserting into a sorted list keeps it sorted and permutes the list plus the new task: every old element stays as often as it occurred and the new task is added once |
| TasksService.InsertDistinct | backend/src/tasks/tasks.service.ts:34 | inserting a task with a new id keeps the ids in the list distinct |
| TasksService.FindAll | backend/src/tasks/tasks.service.ts:13-35 | the result lists exactly the stored tasks the query selects, each once, sorted by date ascending then creation time descending |
| TasksService.FindOne | backend/src/tasks/tasks.service.ts:38-44 | returns the stored task iff the id is stored, otherwise NotFound with `Task not found` |
| TasksService.EnsureExists | backend/src/tasks/tasks.service.ts:79-88 | passes iff the id is stored, otherwise NotFound with `Task not found` |
| TasksService.Create | backend/src/tasks/tasks.service.ts:46-60 | adds exactly one task under the fresh id with the body's fields, status defaulting to planned, tags to `[]`, and creation time equal to update time; other tasks untouched |
| TasksService.Update | backend/src/tasks/tasks.service.ts:63-72 | NotFound with the table unchanged for an unknown id; otherwise each present patch field overwrites, each absent one is kept, id and creation time stay, update time becomes `now`, other tasks untouched |
| TasksService.NoChangesOnlyTouches | backend/src/tasks/tasks.service.ts:65-71 | an empty patch changes only the update time |
| TasksService.UpdateIdempotent | backend/src/tasks/tasks.service.ts:65-71 | applying the same patch twice at one instant equals applying it once |
| TasksService.UpdateKeepsOmittedFields | backend/src/tasks/tasks.service.spec.ts:219-287 | patching `u1` with a status and a tag list keeps its id, title, description, priority and dates, sets the status to done and replaces its tags by `["work"]` |
| TasksService.Remove | backend/src/tasks/tasks.service.ts:74-77 | NotFound with the table unchanged for an unknown id; otherwise exactly that task leaves and all others remain |
| TasksService.FindOneAfterCreate | backend/src/tasks/tasks.service.ts:38-60 | a created task is found under its id |
| TasksService.RemoveUndoesCreate | backend/src/tasks/tasks.service.ts:46-77 | removing a task just created restores the table |
| TasksService.RemovedIsNotFound | backend/src/tasks/tasks.service.ts:63-88 | after a remove, find, update and remove of that id all throw NotFound |
| TasksState.DefaultFilters | frontend/src/features/tasks/hooks/useTasksState.ts:14-18 | the initial filters are today's date, every status and every tag |
| TasksState.ByDate | frontend/src/features/tasks/hooks/useTasksState.ts:51-53 | with a non-empty date, exactly the tasks scheduled on it are kept, in order, each as often as in the input |
| TasksState.ByTag | frontend/src/features/tasks/hooks/useTasksState.ts:55-57 | with a tag other than `all`, exactly the tasks listing it are kept, in order, each as often as in the input |
| TasksState.FilteredTasks | frontend/src/features/tasks/hooks/useTasksState.ts:48-64 | the view is an order-preserving subsequence of the tasks holding exactly those that pass the date and tag criteria, each as often as in the list; status is not consulted |
| TasksState.TagStageTwiceIsOnce | frontend/src/features/tasks/hooks/useTasksState.ts:55-61 | the duplicated tag stage gives the same view as a single one |
| TasksState.StatusIgnored | frontend/src/features/tasks/hooks/useTasksState.ts:48-64 | changing the status filter never changes the view |
| TasksState.IndexOf | frontend/src/features/tasks/hooks/useTasksState.ts:104 | returns the first index holding the value, or -1 exactly when it is absent |
| TasksState.NextStatus | frontend/src/features/tasks/hooks/useTasksState.ts:102-105 | planned goes to in progress, in progress to done, done to planned; the next status always differs |
| TasksState.ToggleCycle | frontend/src/features/tasks/hooks/useTasksState.ts:102-105 | three toggles return to the starting status, two do not |
| TasksState.ToggleRequest | frontend/src/features/tasks/hooks/useTasksState.ts:102-107 | a toggle requests an update of the task's id carrying only the next status |
| TasksState.ToggleChangesOnlyStatus | frontend/src/features/tasks/hooks/useTasksState.ts:102-107 | on the server a toggle changes only the task's status and update time |
| TasksState.CreateRequest | frontend/src/features/tasks/hooks/useTasksState.ts:66-72 | a create posts the form payload with status planned |
| TasksState.UpdateRequest | frontend/src/features/tasks/hooks/useTasksState.ts:80-83 | an update sends the form payload as a patch without status, absent description and due date left out |
| TasksState.AfterCreate | frontend/src/features/tasks/hooks/useTasksState.ts:73 | the created task is prepended and the previous list follows unchanged |
| TasksState.AfterUpdate | frontend/src/features/tasks/hooks/useTasksState.ts:84 | every element with the id is replaced, the rest kept, length and order preserved |
| TasksState.AfterDelete | frontend/src/features/tasks/hooks/useTasksState.ts:95 | every element with the id is removed and the others kept in order, each as often as before |
| TasksState.DeleteUndoesCreate | frontend/src/features/tasks/hooks/useTasksState.ts:73-95 | deleting a task just prepended, whose id the list did not hold, restores the list |
| TasksState.UpdateIdempotent | frontend/src/features/tasks/hooks/useTasksState.ts:84 | applying the same returned task twice equals applying it once, whatever id the response carries |
| TasksState.UpdateAfterDelete | frontend/src/features/tasks/hooks/useTasksState.ts:84-95 | an update after a delete of the same id does not bring the task back |
| TaskForm.InitialFields | frontend/src/features/tasks/components/TaskForm.tsx:28-34 | the fields come from the edited task, or are empty text, the default date, medium priority and no tags |
| TaskForm.ToggleTag | frontend/src/features/tasks/components/TaskForm.tsx:50-54 | a selected key is removed, every copy of it, keeping the other keys in order and each as often as before; an unselected key is appended |
| TaskForm.ToggleKeepsNoDuplicates | frontend/src/features/tasks/components/TaskForm.tsx:50-54 | toggling keeps a duplicate-free selection duplicate-free |
| TaskForm.ToggleTwice | frontend/src/features/tasks/components/TaskForm.tsx:50-54 | toggling a key twice keeps the set of selected keys, and for an unselected key the selection itself |
| TaskForm.Submit | frontend/src/features/tasks/components/TaskForm.tsx:36-48 | nothing is emitted iff the title is all white space; otherwise the trimmed non-empty title, the trimmed description or none, the due date or none, and the current selection |
| TaskForm.SubmitPressed | frontend/src/features/tasks/components/TaskForm.tsx:67-97 | pressing save emits nothing exactly when the scheduled date is cleared (the `required` input blocks the submit event) or the title is blank; otherwise it emits what `handleSubmit` emits, with a non-empty date |
| TaskForm.SubmittedTextIsTrimmed | frontend/src/features/tasks/components/TaskForm.tsx:40-42 | an emitted title and description are already trimmed, and an emitted description is non-empty |
| TaskForm.EditRoundTrip | frontend/src/features/tasks/components/TaskForm.tsx:28-47 | submitting an unchanged edit form sends the task's title, date, priority and tags back |
| TaskBoard.Handle | frontend/src/features/tasks/components/TaskBoard.tsx:28-56 | create and edit open the matching form, with fresh inputs only when it mounts; typing changes an open form only; a submit with a non-blank title and a scheduled date calls `createTask` in create mode or `updateTask` with the edited id in edit mode and leaves the form open; the return of an awaited call closes whatever form is open; cancel always closes |
| TaskBoard.StepSources | frontend/src/features/tasks/components/TaskBoard.tsx:32-49 | an update call names the task being edited, and an edit form after an event is the one before it or the one clicked |
| TaskBoard.UpdatesTargetEditedTasks | frontend/src/features/tasks/components/TaskBoard.tsx:32-49 | every update call of a run names a task an earlier edit opened |
| TaskBoard.FormShownWhileOpen | frontend/src/features/tasks/components/TaskBoard.tsx:83 | after an event the form is shown iff the event was create or edit, or it was shown and the event was typing, a submit, or a return with nothing awaited |
| TaskBoard.FormInitialTask | frontend/src/features/tasks/components/TaskBoard.tsx:86 | the form is initialised from a task exactly in edit mode, and from the edited one |
| TaskBoard.OpenedFormFields | frontend/src/features/tasks/components/TaskBoard.tsx:83-88 | a form opened over a closed board starts empty on the filter's date (today when it is null) in create mode, and with the clicked task's title, date, priority and tags in edit mode |
| TaskBoard.FormDefaultDate | frontend/src/features/tasks/components/TaskBoard.tsx:88 | the default date is the filter's date unless null, else today |
| TaskBoard.SubmitKeepsFormOpen | frontend/src/features/tasks/components/TaskBoard.tsx:45-51 | a valid submit leaves the form as it is while its call is awaited, and in create mode calls `createTask` with the form's payload |
| TaskBoard.DoubleSubmitCreatesTwice | frontend/src/features/tasks/components/TaskBoard.tsx:45-51 | saving a create form twice before the first call returns makes two identical `createTask` calls |
| TaskBoard.ReturnClosesFormOpenedMeanwhile | frontend/src/features/tasks/components/TaskBoard.tsx:45-51 | an edit form opened while a create is awaited is closed when the create returns |
| TaskBoard.StaleFieldsSentToOtherTask | frontend/src/features/tasks/components/TaskBoard.tsx:83-92 | as written, editing `a`, then clicking Edit on another task `c` and saving sends `a`'s trimmed title under `c`'s id |
| TaskBoard.KeyedEditSendsClickedTask | frontend/src/features/tasks/components/TaskForm.tsx:28-34 | with a form keyed by task, clicking Edit on a task not being edited shows that task's own inputs, and saving them updates that task with its own fields |
| TaskBoard.ClearedDateKeepsFormOpen | frontend/src/features/tasks/components/TaskForm.tsx:90-96 | saving a form whose scheduled date was cleared makes no call and leaves the form open, since no awaited call returns to close it |
| TaskBoard.ClearedDescriptionIsKept | frontend/src/features/tasks/components/TaskBoard.tsx:45-49 | clearing the description in the edit form leaves the server's description as it was |
| TaskFiltersPanel.DateInputValue | frontend/src/features/tasks/components/TaskFilters.tsx:25 | the date input shows the filter's date, or `''` for null |
| TaskFiltersPanel.SetDate | frontend/src/features/tasks/components/TaskFilters.tsx:26-31 | an empty input clears the date, any other input becomes it; status and tag are kept |
| TaskFiltersPanel.SetStatus | frontend/src/features/tasks/components/TaskFilters.tsx:40-45 | only the status changes |
| TaskFiltersPanel.SetTag | frontend/src/features/tasks/components/TaskFilters.tsx:60-65 | only the tag changes |
| TaskFiltersPanel.DateInputRoundTrip | frontend/src/features/tasks/components/TaskFilters.tsx:25-31 | whatever is typed into the date input is displayed back |
| TaskFiltersPanel.DisplayedDateRoundTrip | frontend/src/features/tasks/components/TaskFilters.tsx:25-31 | feeding the displayed date back (`''` for null) leaves the filters unchanged |
| TaskFiltersPanel.StatusOptionsComplete | frontend/src/features/tasks/components/TaskFilters.tsx:3-8 | four distinct status options, `all` first, every status offered |
| TaskFiltersPanel.TagOptionValues | frontend/src/features/tasks/components/TaskFilters.tsx:68-72 | `all`, then each tag's key in order |
| TaskFiltersPanel.ChosenTagOptionFilters | frontend/src/features/tasks/components/TaskFilters.tsx:58-72 | choosing a tag's option narrows the view to tasks listing that tag's key |
| TaskFiltersPanel.AllOptionClearsTagFilter | frontend/src/features/tasks/components/TaskFilters.tsx:68 | choosing `all` removes the tag criterion from the view |
| TaskItem.StatusLabel | frontend/src/features/tasks/components/TaskItem.tsx:11-22 | each status string gets its own label and any other string is shown as is |
| TaskItem.StatusLabelsDistinct | frontend/src/features/tasks/components/TaskItem.tsx:11-22 | the three statuses get pairwise different labels |
| TaskItem.StatusBadgeClasses | frontend/src/features/tasks/components/TaskItem.tsx:24-32 | planned and in progress get their own style; every other string gets the done style |
| TaskItem.BadgesDistinct | frontend/src/features/tasks/components/TaskItem.tsx:24-32 | the three statuses get pairwise different styles |
| TaskItem.ChipTags | frontend/src/features/tasks/components/TaskItem.tsx:35 | the chips are exactly the known tags whose key the task lists, in the known tags' order |
| TaskItem.ShowsTagSection | frontend/src/features/tasks/components/TaskItem.tsx:92 | the tag section is shown iff some known tag's key is listed by the task |
| TaskItem.UntaggedShowsNoChips | frontend/src/features/tasks/components/TaskItem.tsx:35 | a task without tags shows no chips and no tag section |
| TaskItem.IsOverdue | frontend/src/features/tasks/components/TaskItem.tsx:36-39 | only a task with a non-empty due date that is not done can be overdue, and then exactly when the date is past |
| TaskItem.DoneOrUndatedNeverOverdue | frontend/src/features/tasks/components/TaskItem.tsx:36-39 | a done task, or one without a due date, is never overdue |
| ApiClient.ApiUrl | frontend/src/shared/api/client.ts:1 | the configured base URL, or `http://localhost:3000` when unset |
| ApiClient.NormalizePath | frontend/src/shared/api/client.ts:4-6 | the path gains a leading slash exactly when it has none |
| ApiClient.NormalizeIdempotent | frontend/src/shared/api/client.ts:4-6 | normalising twice equals normalising once |
| ApiClient.BuildUrl | frontend/src/shared/api/client.ts:3-8 | the base URL then the path, with one slash inserted when the path lacks one; the part after the base always starts with `/` |
| ApiClient.LeadingSlashOptional | frontend/src/shared/api/client.ts:3-8 | `tasks` and `/tasks` give the same URL |
| ApiClient.HandleJsonOrThrow | frontend/src/shared/api/client.ts:10-25 | an ok response yields its parsed body (or the parse error); a failed one always fails with the fallback message |
| ApiClient.ServerMessageSwallowed | frontend/src/shared/api/client.ts:15-24 | a failed response with a string `message` still fails with the fallback, not that message |
| ApiClient.EnsureOkOrThrow | frontend/src/shared/api/client.ts:27-31 | passes iff the response is ok, otherwise fails with the fallback message |

## Left out

- Tag association rows, tag lookup by key, transactions and `id=…` NotFound messages: the service code has none of them (the unit tests in `backend/src/tasks/tasks.service.spec.ts` expect them); the model follows the code.
- `backend/src/tasks/dto/update-task.dto.ts` is not part of this model: the patch is taken as already validated, and an explicit `null` field in a PATCH body (which would clear a nullable column) is not modelled.
- Prisma and the database: replaced by the in-memory table; a store failure (connection loss, constraint violation) is not modelled.
- Id generation and the clock: a fresh id, `now` and `today` are parameters; the date parsing of `isOverdue` is the parameter `dueBeforeToday`.
- HTTP and I/O: `fetch`, JSON parsing, `tasksApi.ts` and `tagsApi.ts`, `loadInitialData`, the loading flag and the error strings of the hook. The list updates are modelled for a successful call; a failed call leaves the list as it was.
- React rendering, hooks and markup, including `TaskList.tsx`, which only maps tasks to items.
- `users.service.ts`, `tags.service.ts`, `tags.controller.ts`: single calls into the ORM.
- TasksService.Update and TasksService.Remove: each is one atomic step. The service runs `ensureExists` and then the write as two queries without a transaction, and the model leaves out the race between them. A row deleted between the two makes the write throw, and the request fails with a server error instead of NotFound.
- TasksService.FindAll: the order of two tasks with the same scheduled date and creation time is left open, as Prisma leaves it.
- Text.LexLe: compares code points, while the database compares by its collation and JavaScript by UTF-16 units. The model assumes the three agree on dates. They do for ASCII `YYYY-MM-DD` strings, but the service only checks a date's length, so a date holding other characters may be ordered differently by the database.
- TasksService.Update: "id and creation time stay" holds because the patch type has no `id` or `createdAt` field. The service spreads the whole validated body into the update (`...dto`), so this relies on the validation pipe stripping unknown properties (`whitelist`). That pipe configuration is not part of this model.
- CreateTaskValidation.Validate: a body whose `title`, `scheduledDate` or `priority` is missing or not a string, or whose `tagIds` holds a non-string, cannot be written as a `RawCreateTask`. The rejection of such bodies is not modelled.
- Text.CharLength: strings are sequences of Unicode scalar values, so a lone surrogate, which `Length` would count as one, cannot be written.
- TaskBoard.Run: the default date is fixed for a whole run; a change of the filters between events is not modelled. `Typed` stands for all of the form's input handlers at once, with any new field values.
- TaskBoard.Handle: the browser's check of `required` inputs is modelled only as far as empty values go (`TaskForm.SubmitPressed`). A date input holding a partial, invalid date reports the empty string, which the model treats the same way.
- TaskBoard.Handle: `CallReturned` does not say whether the call succeeded. The hook catches a failure, so the form closes either way. What happens to the task list is modelled separately, in `TasksState`.

## Findings

| source | as written | input that shows it | evidently intended | confidence | as-written member | corrected member |
|---|---|---|---|---|---|---|
| frontend/src/features/tasks/components/TaskBoard.tsx:83-92 | `TaskForm` is rendered without a `key`, and its `useState` initialisers (TaskForm.tsx:28-34) run only on mount, so switching an open form to another task keeps the inputs of the first | edit task `a`, click Edit on task `c` (ids differ) and save: `updateTask(c.id, …)` carries `a`'s title | the form shows and saves the clicked task's fields (`key={task id or 'create'}`) | not executed | TaskBoard.StaleFieldsSentToOtherTask | TaskBoard.KeyedEditSendsClickedTask |
