/** The records shared by the client and the server: task statuses and
    priorities, tags, tasks, the client's filter state and the payloads sent
    over the wire. */
module Types {
  import opened Wrappers

  datatype TaskStatus = Planned | InProgress | Done
  datatype TaskPriority = Low | Medium | High

  /** The allowed status strings, in declaration order. */
  const StatusValues: seq<string> := ["planned", "in_progress", "done"]
  /** The allowed priority strings, in declaration order. */
  const PriorityValues: seq<string> := ["low", "medium", "high"]

  /** The wire spelling of a status; `ParseStatus` is its inverse. */
  function StatusName(s: TaskStatus): (name: string)
    ensures name in StatusValues
    ensures ParseStatus(name) == Some(s)
  {
    match s
    case Planned => "planned"
    case InProgress => "in_progress"
    case Done => "done"
  }

  /** Reads a wire status; `None` for any string outside `StatusValues`. */
  function ParseStatus(name: string): (r: Option<TaskStatus>)
    ensures r.Some? <==> name in StatusValues
  {
    if name == "planned" then Some(Planned)
    else if name == "in_progress" then Some(InProgress)
    else if name == "done" then Some(Done)
    else None
  }

  /** The wire spelling of a priority; `ParsePriority` is its inverse. */
  function PriorityName(p: TaskPriority): (name: string)
    ensures name in PriorityValues
    ensures ParsePriority(name) == Some(p)
  {
    match p
    case Low => "low"
    case Medium => "medium"
    case High => "high"
  }

  /** Reads a wire priority; `None` for any string outside `PriorityValues`. */
  function ParsePriority(name: string): (r: Option<TaskPriority>)
    ensures r.Some? <==> name in PriorityValues
  {
    if name == "low" then Some(Low)
    else if name == "medium" then Some(Medium)
    else if name == "high" then Some(High)
    else None
  }

  /** Parsing a valid status string and printing it back returns the string. */
  lemma ParseStatusRoundTrip(name: string)
    requires name in StatusValues
    ensures StatusName(ParseStatus(name).value) == name
  {
  }

  /** Parsing a valid priority string and printing it back returns the string. */
  lemma ParsePriorityRoundTrip(name: string)
    requires name in PriorityValues
    ensures PriorityName(ParsePriority(name).value) == name
  {
  }

  datatype Tag = Tag(id: string, key: string, name: string, color: Option<string>)

  /** Creation and update instants; only their order matters. */
  type Timestamp = nat

  /** A stored task. `tagIds` holds tag keys, not tag ids. */
  datatype Task = Task(
    id: string,
    title: string,
    description: Option<string>,
    status: TaskStatus,
    priority: TaskPriority,
    scheduledDate: string,
    dueDate: Option<string>,
    tagIds: seq<string>,
    createdAt: Timestamp,
    updatedAt: Timestamp)

  /** The client's status filter: a status or the `all` choice. */
  datatype StatusFilter = AllStatuses | OnlyStatus(status: TaskStatus)

  /** The sentinel the client's tag filter uses for "any tag". */
  const AllTags: string := "all"

  /** The client's filter state. `tagId` is a tag key, or `AllTags`. */
  datatype TaskFilters = TaskFilters(date: Option<string>, status: StatusFilter, tagId: string)

  /** A task creation request. `tagIds` is optional because the server
      tolerates a body without it; the client always sends it. */
  datatype CreateTaskPayload = CreateTaskPayload(
    title: string,
    description: Option<string>,
    scheduledDate: string,
    dueDate: Option<string>,
    priority: TaskPriority,
    status: Option<TaskStatus>,
    tagIds: Option<seq<string>>)

  /** A partial update: each absent field is left as it is. */
  datatype TaskPatch = TaskPatch(
    title: Option<string>,
    description: Option<string>,
    scheduledDate: Option<string>,
    dueDate: Option<string>,
    priority: Option<TaskPriority>,
    status: Option<TaskStatus>,
    tagIds: Option<seq<string>>)

  /** The patch that carries no field. */
  const NoChanges: TaskPatch := TaskPatch(None, None, None, None, None, None, None)

  /** JavaScript truthiness of an optional string: present and not empty. */
  predicate Present(p: Option<string>) {
    p.Some? && p.value != ""
  }

  /** What the task form emits: a creation request without a status. */
  datatype FormPayload = FormPayload(
    title: string,
    description: Option<string>,
    scheduledDate: string,
    dueDate: Option<string>,
    priority: TaskPriority,
    tagIds: seq<string>)
}
