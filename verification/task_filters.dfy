/** The filter panel's update functions and options
    (frontend/src/features/tasks/components/TaskFilters.tsx). */
module TaskFiltersPanel {
  import opened Wrappers
  import opened Types
  import opened Seqs
  import TasksState

  /** What the date input displays: the filter's date, or `''` for null. */
  function DateInputValue(f: TaskFilters): (v: string)
    ensures f.date.Some? ==> v == f.date.value
    ensures f.date.None? ==> v == ""
  {
    f.date.GetOr("")
  }

  /** The date input's change: an empty input clears the date, any other
      input becomes the date; the other two filters are kept. */
  function SetDate(f: TaskFilters, input: string): (r: TaskFilters)
    ensures r.status == f.status && r.tagId == f.tagId
    ensures input == "" ==> r.date.None?
    ensures input != "" ==> r.date == Some(input)
  {
    f.(date := if input == "" then None else Some(input))
  }

  /** The status select's change; the other two filters are kept. */
  function SetStatus(f: TaskFilters, choice: StatusFilter): (r: TaskFilters)
    ensures r.status == choice && r.date == f.date && r.tagId == f.tagId
  {
    f.(status := choice)
  }

  /** The tag select's change; the other two filters are kept. */
  function SetTag(f: TaskFilters, value: string): (r: TaskFilters)
    ensures r.tagId == value && r.date == f.date && r.status == f.status
  {
    f.(tagId := value)
  }

  /** Whatever is typed into the date input is displayed back. */
  lemma DateInputRoundTrip(f: TaskFilters, input: string)
    ensures DateInputValue(SetDate(f, input)) == input
  {
  }

  /** Feeding the displayed date back leaves the filters as they were, for
      any filters the panel itself can produce (no empty date). */
  lemma DisplayedDateRoundTrip(f: TaskFilters)
    requires f.date != Some("")
    ensures SetDate(f, DateInputValue(f)) == f
  {
  }

  /** The status options, in display order. */
  const StatusOptions: seq<StatusFilter> := [AllStatuses, OnlyStatus(Planned), OnlyStatus(InProgress), OnlyStatus(Done)]

  /** There are four status options, `all` first, no two alike, and every
      status is offered. */
  lemma StatusOptionsComplete()
    ensures |StatusOptions| == 4 && StatusOptions[0] == AllStatuses
    ensures NoDuplicates(StatusOptions)
    ensures forall s: TaskStatus :: OnlyStatus(s) in StatusOptions
  {
    forall s: TaskStatus ensures OnlyStatus(s) in StatusOptions {
      match s
      case Planned => assert StatusOptions[1] == OnlyStatus(s);
      case InProgress => assert StatusOptions[2] == OnlyStatus(s);
      case Done => assert StatusOptions[3] == OnlyStatus(s);
    }
  }

  /** The tag options' values: `all`, then each available tag's key (not its
      id), in order. */
  function TagOptionValues(tags: seq<Tag>): (values: seq<string>)
    ensures |values| == |tags| + 1 && values[0] == AllTags
    ensures forall i :: 0 <= i < |tags| ==> values[i + 1] == tags[i].key
  {
    [AllTags] + seq(|tags|, i requires 0 <= i < |tags| => tags[i].key)
  }

  /** Choosing a tag's option narrows the list to tasks carrying that tag's
      key, unless the key collides with the `all` sentinel. */
  lemma ChosenTagOptionFilters(tasks: seq<Task>, f: TaskFilters, tags: seq<Tag>, i: nat)
    requires 0 <= i < |tags| && tags[i].key != AllTags
    ensures var g := SetTag(f, TagOptionValues(tags)[i + 1]);
      forall t :: t in TasksState.FilteredTasks(tasks, g) ==> tags[i].key in t.tagIds
  {
  }

  /** Choosing the first option clears the tag filter. */
  lemma AllOptionClearsTagFilter(tasks: seq<Task>, f: TaskFilters, tags: seq<Tag>)
    ensures var g := SetTag(f, TagOptionValues(tags)[0]);
      forall t :: t in TasksState.FilteredTasks(tasks, g) <==> t in tasks && TasksState.DateKept(f, t)
  {
  }
}
