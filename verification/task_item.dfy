/** The pure decisions of a task's list item
    (frontend/src/features/tasks/components/TaskItem.tsx): status label and
    badge style, the tag chips shown and the overdue guard. */
module TaskItem {
  import opened Wrappers
  import opened Types
  import opened Seqs

  const PlannedLabel: string := "Заплановано"
  const InProgressLabel: string := "У процесі"
  const DoneLabel: string := "Виконано"

  /** `getStatusLabel` on the status string a task arrived with: the three
      statuses get their own labels, any other string is shown as is. */
  function StatusLabel(status: string): (text: string)
    ensures status == "planned" ==> text == PlannedLabel
    ensures status == "in_progress" ==> text == InProgressLabel
    ensures status == "done" ==> text == DoneLabel
    ensures status !in StatusValues ==> text == status
  {
    if status == "planned" then PlannedLabel
    else if status == "in_progress" then InProgressLabel
    else if status == "done" then DoneLabel
    else status
  }

  /** Different statuses get different labels. */
  lemma StatusLabelsDistinct(a: TaskStatus, b: TaskStatus)
    requires a != b
    ensures StatusLabel(StatusName(a)) != StatusLabel(StatusName(b))
  {
  }

  const PlannedBadge: string := "bg-slate-800 text-slate-200"
  const InProgressBadge: string := "bg-amber-500/15 text-amber-300 ring-1 ring-amber-500/40"
  const DoneBadge: string := "bg-emerald-500/15 text-emerald-300 ring-1 ring-emerald-500/40"

  /** `getStatusBadgeClasses`: planned and in-progress get their own styles,
      every other string gets the done style. */
  function StatusBadgeClasses(status: string): (classes: string)
    ensures status == "planned" ==> classes == PlannedBadge
    ensures status == "in_progress" ==> classes == InProgressBadge
    ensures status != "planned" && status != "in_progress" ==> classes == DoneBadge
  {
    if status == "planned" then PlannedBadge
    else if status == "in_progress" then InProgressBadge
    else DoneBadge
  }

  /** The three statuses get three different badge styles. */
  lemma BadgesDistinct(a: TaskStatus, b: TaskStatus)
    requires a != b
    ensures StatusBadgeClasses(StatusName(a)) != StatusBadgeClasses(StatusName(b))
  {
  }

  function KeyIn(keys: seq<string>): Tag -> bool {
    (tag: Tag) => tag.key in keys
  }

  /** The tag chips of a task: the known tags whose key the task lists, in
      the known tags' order. A key no tag has shows nothing. */
  function ChipTags(task: Task, allTags: seq<Tag>): (chips: seq<Tag>)
    ensures IsSubsequence(chips, allTags)
    ensures forall tag :: tag in chips <==> tag in allTags && tag.key in task.tagIds
    ensures forall tag :: multiset(chips)[tag] == if tag.key in task.tagIds then multiset(allTags)[tag] else 0
  {
    Filter(allTags, KeyIn(task.tagIds))
  }

  /** The tag section is rendered when at least one chip is. */
  function ShowsTagSection(task: Task, allTags: seq<Tag>): (shown: bool)
    ensures shown <==> exists i :: 0 <= i < |allTags| && allTags[i].key in task.tagIds
  {
    var chips := ChipTags(task, allTags);
    if |chips| > 0 then
      assert chips[0] in allTags;
      true
    else
      assert forall i :: 0 <= i < |allTags| ==> allTags[i].key !in task.tagIds by {
        forall i | 0 <= i < |allTags| ensures allTags[i].key !in task.tagIds {
          assert allTags[i] in allTags && allTags[i] !in chips;
        }
      }
      false
  }

  /** A task without tags shows no tag section. */
  lemma UntaggedShowsNoChips(task: Task, allTags: seq<Tag>)
    requires task.tagIds == []
    ensures ChipTags(task, allTags) == [] && !ShowsTagSection(task, allTags)
  {
  }

  /** `isOverdue`: a task with a (non-empty) due date that is not done, whose
      due date lies before today. The date comparison against the clock is
      the parameter `dueBeforeToday`. */
  function IsOverdue(task: Task, dueBeforeToday: string -> bool): (overdue: bool)
    ensures overdue ==> Present(task.dueDate) && task.status != Done
    ensures Present(task.dueDate) && task.status != Done ==> overdue == dueBeforeToday(task.dueDate.value)
  {
    Present(task.dueDate) && task.status != Done && dueBeforeToday(task.dueDate.value)
  }

  /** Marking a task done, or dropping its due date, clears the overdue mark
      whatever the clock says. */
  lemma DoneOrUndatedNeverOverdue(task: Task, dueBeforeToday: string -> bool)
    ensures !IsOverdue(task.(status := Done), dueBeforeToday)
    ensures !IsOverdue(task.(dueDate := None), dueBeforeToday)
  {
  }
}
