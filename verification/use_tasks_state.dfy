/** The client's task list state (frontend/src/features/tasks/hooks/useTasksState.ts):
    the default filters, the filtered view, the status cycle and the list
    updates run after a successful create, update or delete. The network
    calls themselves are not modelled: their results are parameters. */
module TasksState {
  import opened Wrappers
  import opened Types
  import opened Seqs
  import TasksService

  /** `defaultFilters`, with the current date as a parameter. */
  function DefaultFilters(today: string): (f: TaskFilters)
    ensures f.date == Some(today)
    ensures f.status == AllStatuses && f.tagId == AllTags
  {
    TaskFilters(Some(today), AllStatuses, AllTags)
  }

  function ScheduledOn(date: string): Task -> bool {
    (t: Task) => t.scheduledDate == date
  }

  function HasTag(key: string): Task -> bool {
    (t: Task) => key in t.tagIds
  }

  /** A task passes the date criterion of the filters. */
  predicate DateKept(filters: TaskFilters, t: Task) {
    Present(filters.date) ==> t.scheduledDate == filters.date.value
  }

  /** A task passes the tag criterion of the filters. */
  predicate TagKept(filters: TaskFilters, t: Task) {
    filters.tagId != AllTags ==> filters.tagId in t.tagIds
  }

  /** The date stage of `filteredTasks`: an empty or null date keeps all. */
  function ByDate(tasks: seq<Task>, filters: TaskFilters): (r: seq<Task>)
    ensures IsSubsequence(r, tasks)
    ensures forall t :: t in r <==> t in tasks && DateKept(filters, t)
    ensures forall t :: multiset(r)[t] == if DateKept(filters, t) then multiset(tasks)[t] else 0
  {
    if Present(filters.date) then Filter(tasks, ScheduledOn(filters.date.value))
    else SubsequenceReflexive(tasks); tasks
  }

  /** One tag stage of `filteredTasks`: the `all` sentinel keeps all. */
  function ByTag(tasks: seq<Task>, filters: TaskFilters): (r: seq<Task>)
    ensures IsSubsequence(r, tasks)
    ensures forall t :: t in r <==> t in tasks && TagKept(filters, t)
    ensures forall t :: multiset(r)[t] == if TagKept(filters, t) then multiset(tasks)[t] else 0
  {
    if filters.tagId != AllTags then Filter(tasks, HasTag(filters.tagId))
    else SubsequenceReflexive(tasks); tasks
  }

  /** `filteredTasks` as written, with its tag stage applied twice: an
      order-preserving subsequence of `tasks` holding exactly the tasks that
      pass the date and tag criteria. `filters.status` is never read. */
  function FilteredTasks(tasks: seq<Task>, filters: TaskFilters): (r: seq<Task>)
    ensures IsSubsequence(r, tasks)
    ensures forall t :: t in r <==> t in tasks && DateKept(filters, t) && TagKept(filters, t)
    ensures forall t :: multiset(r)[t] == if DateKept(filters, t) && TagKept(filters, t) then multiset(tasks)[t] else 0
  {
    var byDate := ByDate(tasks, filters);
    var once := ByTag(byDate, filters);
    var twice := ByTag(once, filters);
    SubsequenceTransitive(once, byDate, tasks);
    SubsequenceTransitive(twice, once, tasks);
    twice
  }

  /** The repeated tag stage is idempotent: the view equals one with a single
      tag stage. */
  lemma TagStageTwiceIsOnce(tasks: seq<Task>, filters: TaskFilters)
    ensures FilteredTasks(tasks, filters) == ByTag(ByDate(tasks, filters), filters)
  {
    if filters.tagId != AllTags {
      FilterIdempotent(ByDate(tasks, filters), HasTag(filters.tagId));
    }
  }

  /** The status filter has no effect on the view. */
  lemma StatusIgnored(tasks: seq<Task>, filters: TaskFilters, status: StatusFilter)
    ensures FilteredTasks(tasks, filters.(status := status)) == FilteredTasks(tasks, filters)
  {
  }

  /** The cycle order of `toggleStatus`. */
  const StatusOrder: seq<TaskStatus> := [Planned, InProgress, Done]

  /** `Array.prototype.indexOf`: the first index holding `x`, or -1. */
  function IndexOf(s: seq<TaskStatus>, x: TaskStatus): (i: int)
    ensures -1 <= i < |s|
    ensures i == -1 <==> x !in s
    ensures i >= 0 ==> s[i] == x && forall j :: 0 <= j < i ==> s[j] != x
  {
    if |s| == 0 then -1
    else if s[0] == x then 0
    else
      var i := IndexOf(s[1..], x);
      if i == -1 then -1 else i + 1
  }

  /** The status `toggleStatus` asks for: the next one in the cycle
      planned, in progress, done, planned. */
  function NextStatus(status: TaskStatus): (next: TaskStatus)
    ensures next != status
    ensures status == Planned ==> next == InProgress
    ensures status == InProgress ==> next == Done
    ensures status == Done ==> next == Planned
  {
    var idx := IndexOf(StatusOrder, status);
    if idx == -1 then Planned else StatusOrder[(idx + 1) % |StatusOrder|]
  }

  /** Three toggles bring a task back to its status. */
  lemma ToggleCycle(status: TaskStatus)
    ensures NextStatus(NextStatus(NextStatus(status))) == status
    ensures NextStatus(NextStatus(status)) != status
  {
  }

  /** `toggleStatus(task)`: the update it requests, for the task's id and
      carrying only the next status. */
  function ToggleRequest(task: Task): (req: (string, TaskPatch))
    ensures req.0 == task.id
    ensures req.1 == NoChanges.(status := Some(NextStatus(task.status)))
  {
    (task.id, NoChanges.(status := Some(NextStatus(task.status))))
  }

  /** On the server, a toggle changes the task's status and update time and
      nothing else. */
  lemma ToggleChangesOnlyStatus(store: TasksService.Store, task: Task, now: Timestamp)
    requires task.id in store && store[task.id] == task
    ensures var (id, patch) := ToggleRequest(task);
      TasksService.Update(store, id, patch, now).result
        == Ok(task.(status := NextStatus(task.status), updatedAt := now))
  {
  }

  /** The body `createTask` posts for a form payload: the payload with
      status planned. */
  function CreateRequest(payload: FormPayload): (body: CreateTaskPayload)
    ensures body.status == Some(Planned)
    ensures body.tagIds == Some(payload.tagIds)
    ensures body.title == payload.title && body.description == payload.description
    ensures body.scheduledDate == payload.scheduledDate && body.dueDate == payload.dueDate
    ensures body.priority == payload.priority
  {
    CreateTaskPayload(payload.title, payload.description, payload.scheduledDate,
                      payload.dueDate, payload.priority, Some(Planned), Some(payload.tagIds))
  }

  /** The patch `updateTask` sends for a form payload. `JSON.stringify` drops
      an `undefined` description or due date, so those fields are absent. */
  function UpdateRequest(payload: FormPayload): (patch: TaskPatch)
    ensures patch.title == Some(payload.title) && patch.scheduledDate == Some(payload.scheduledDate)
    ensures patch.description == payload.description && patch.dueDate == payload.dueDate
    ensures patch.priority == Some(payload.priority) && patch.tagIds == Some(payload.tagIds)
    ensures patch.status.None?
  {
    TaskPatch(Some(payload.title), payload.description, Some(payload.scheduledDate),
              payload.dueDate, Some(payload.priority), None, Some(payload.tagIds))
  }

  /** The list after a successful create: the created task first, then the
      previous list unchanged. */
  function AfterCreate(prev: seq<Task>, created: Task): (r: seq<Task>)
    ensures |r| == |prev| + 1 && r[0] == created && r[1..] == prev
  {
    [created] + prev
  }

  /** The list after a successful update: every element with the id is
      replaced by the returned task, the rest stay, in order. */
  function AfterUpdate(prev: seq<Task>, id: string, updated: Task): (r: seq<Task>)
    ensures |r| == |prev|
    ensures forall i :: 0 <= i < |r| ==> r[i] == if prev[i].id == id then updated else prev[i]
  {
    seq(|prev|, i requires 0 <= i < |prev| => if prev[i].id == id then updated else prev[i])
  }

  function IdIsNot(id: string): Task -> bool {
    (t: Task) => t.id != id
  }

  /** The list after a successful delete: every element with the id is
      gone, the others stay, in order. */
  function AfterDelete(prev: seq<Task>, id: string): (r: seq<Task>)
    ensures IsSubsequence(r, prev)
    ensures forall t :: t in r <==> t in prev && t.id != id
    ensures forall t :: multiset(r)[t] == if t.id != id then multiset(prev)[t] else 0
  {
    Filter(prev, IdIsNot(id))
  }

  /** Deleting a task just created restores the list. */
  lemma DeleteUndoesCreate(prev: seq<Task>, created: Task)
    requires forall i :: 0 <= i < |prev| ==> prev[i].id != created.id
    ensures AfterDelete(AfterCreate(prev, created), created.id) == prev
  {
    FilterConcat([created], prev, IdIsNot(created.id));
    FilterKeepsAll(prev, IdIsNot(created.id));
  }

  /** Applying the same returned task twice is applying it once, whatever
      id the server's response carries. */
  lemma UpdateIdempotent(prev: seq<Task>, id: string, updated: Task)
    ensures AfterUpdate(AfterUpdate(prev, id, updated), id, updated) == AfterUpdate(prev, id, updated)
  {
  }

  /** An update keeps the list's ids: a deleted task does not come back. */
  lemma UpdateAfterDelete(prev: seq<Task>, id: string, updated: Task)
    ensures AfterUpdate(AfterDelete(prev, id), id, updated) == AfterDelete(prev, id)
  {
    var d := AfterDelete(prev, id);
    forall i | 0 <= i < |d| ensures d[i].id != id {
      assert d[i] in d;
    }
  }
}
