/** The field constraints of the task creation body, checked at the HTTP
    boundary before the service runs (backend/src/tasks/dto/create-task.dto.ts).
    A string's length is the length class-validator's `Length` measures
    (`CharLength`).
    The `IsString`/`IsArray` type checks are carried by the Dafny field types. */
module CreateTaskValidation {
  import opened Wrappers
  import opened Types
  import opened Text
  import opened Seqs

  /** The properties of the body, named in validation reports. */
  datatype Field = Title | Description | ScheduledDate | DueDate | Priority | Status | TagIds

  /** The body as it arrives. `None` is a field that is absent or `null`,
      which `IsOptional` lets through. */
  datatype RawCreateTask = RawCreateTask(
    title: string,
    description: Option<string>,
    scheduledDate: string,
    dueDate: Option<string>,
    priority: string,
    status: Option<string>,
    tagIds: Option<seq<string>>)

  predicate TitleOk(title: string) {
    1 <= CharLength(title) <= 200
  }

  predicate DescriptionOk(description: Option<string>) {
    description.Some? ==> CharLength(description.value) <= 2000
  }

  /** `YYYY-MM-DD` is checked for its length only: any 10 characters pass. */
  predicate DateOk(date: string) {
    CharLength(date) == 10
  }

  predicate DueDateOk(dueDate: Option<string>) {
    dueDate.Some? ==> DateOk(dueDate.value)
  }

  predicate PriorityOk(priority: string) {
    priority in PriorityValues
  }

  predicate StatusOk(status: Option<string>) {
    status.Some? ==> status.value in StatusValues
  }

  /** `tagIds` has no `IsOptional`: it must be present; `[]` is fine. */
  predicate TagIdsOk(tagIds: Option<seq<string>>) {
    tagIds.Some?
  }

  predicate Valid(raw: RawCreateTask) {
    && TitleOk(raw.title)
    && DescriptionOk(raw.description)
    && DateOk(raw.scheduledDate)
    && DueDateOk(raw.dueDate)
    && PriorityOk(raw.priority)
    && StatusOk(raw.status)
    && TagIdsOk(raw.tagIds)
  }

  /** The properties in declaration order. */
  const AllFields: seq<Field> := [Title, Description, ScheduledDate, DueDate, Priority, Status, TagIds]

  lemma AllFieldsListed()
    ensures forall f :: f in AllFields
  {
    forall f ensures f in AllFields {
      match f
      case Title => assert AllFields[0] == f;
      case Description => assert AllFields[1] == f;
      case ScheduledDate => assert AllFields[2] == f;
      case DueDate => assert AllFields[3] == f;
      case Priority => assert AllFields[4] == f;
      case Status => assert AllFields[5] == f;
      case TagIds => assert AllFields[6] == f;
    }
  }

  /** Whether property `f` of `raw` meets its constraint. */
  predicate FieldOk(raw: RawCreateTask, f: Field) {
    match f
    case Title => TitleOk(raw.title)
    case Description => DescriptionOk(raw.description)
    case ScheduledDate => DateOk(raw.scheduledDate)
    case DueDate => DueDateOk(raw.dueDate)
    case Priority => PriorityOk(raw.priority)
    case Status => StatusOk(raw.status)
    case TagIds => TagIdsOk(raw.tagIds)
  }

  /** The properties that fail their constraints, in declaration order:
      class-validator reports every failing property, not just the first. */
  function Violations(raw: RawCreateTask): (fields: seq<Field>)
    ensures forall f :: f in fields <==> !FieldOk(raw, f)
    ensures fields == [] <==> Valid(raw)
  {
    var fields := Filter(AllFields, f => !FieldOk(raw, f));
    FailingFieldsListed(raw, fields);
    fields
  }

  /** Any list holding exactly the failing fields among `AllFields` holds
      every failing field and is empty exactly when the body is valid. */
  lemma FailingFieldsListed(raw: RawCreateTask, fields: seq<Field>)
    requires forall f :: f in fields <==> f in AllFields && !FieldOk(raw, f)
    ensures forall f :: f in fields <==> !FieldOk(raw, f)
    ensures fields == [] <==> Valid(raw)
  {
    AllFieldsListed();
    if fields == [] {
      assert FieldOk(raw, Title) && FieldOk(raw, Description) && FieldOk(raw, ScheduledDate)
        && FieldOk(raw, DueDate) && FieldOk(raw, Priority) && FieldOk(raw, Status)
        && FieldOk(raw, TagIds);
    } else {
      var f := fields[0];
      assert f in fields && !FieldOk(raw, f);
      match f {
        case Title =>
        case Description =>
        case ScheduledDate =>
        case DueDate =>
        case Priority =>
        case Status =>
        case TagIds =>
      }
    }
  }

  /** The validation step: a valid body reaches the service unchanged, with
      its enum strings read as enum values; an invalid one is rejected with
      the list of failing properties. */
  function Validate(raw: RawCreateTask): (r: Result<CreateTaskPayload, seq<Field>>)
    ensures r.Ok? <==> Valid(raw)
    ensures r.Err? ==> r.error == Violations(raw) && |r.error| > 0
    ensures r.Ok? ==>
      && r.value.title == raw.title
      && r.value.description == raw.description
      && r.value.scheduledDate == raw.scheduledDate
      && r.value.dueDate == raw.dueDate
      && PriorityName(r.value.priority) == raw.priority
      && (r.value.status.Some? <==> raw.status.Some?)
      && (raw.status.Some? ==> StatusName(r.value.status.value) == raw.status.value)
      && r.value.tagIds == raw.tagIds
  {
    if !Valid(raw) then Err(Violations(raw))
    else
      var priority := ParsePriority(raw.priority).value;
      var status := if raw.status.Some? then Some(ParseStatus(raw.status.value).value) else None;
      Ok(CreateTaskPayload(raw.title, raw.description, raw.scheduledDate, raw.dueDate,
                           priority, status, raw.tagIds))
  }

  /** An accepted title holds at least one character; for a title without
      variation selectors it is accepted exactly at 1 to 200 characters,
      whatever plane the characters come from. */
  lemma TitleLengthBounds(title: string)
    ensures TitleOk(title) ==> 1 <= |title|
    ensures NoVariationSelectors(title) ==>
      (TitleOk(title) <==> 1 <= |title| <= 200)
  {
  }

  /** A character outside the Basic Multilingual Plane counts once: a title
      of 200 emoji is accepted. */
  lemma AstralCharactersCountOnce(title: string)
    requires |title| == 200 && forall i :: 0 <= i < |title| ==> title[i] as int > 0xFFFF
    ensures TitleOk(title)
  {
    assert NoVariationSelectors(title);
  }

  /** A variation selector is not counted: appending one never changes
      whether a title is accepted, and a title of selectors alone is empty. */
  lemma VariationSelectorsNotCounted(title: string, selector: char)
    requires IsVariationSelector(selector)
    ensures TitleOk(title + [selector]) <==> TitleOk(title)
    ensures !TitleOk([selector])
  {
    CharLengthConcat(title, [selector]);
    assert CharLength([selector]) == 0 by {
      assert [selector][1..] == [];
    }
  }

  /** Only the length of a date is checked: `2025-13-45` is accepted. */
  lemma DateNotCalendarChecked()
    ensures DateOk("2025-13-45")
  {
    var date := "2025-13-45";
    assert NoVariationSelectors(date);
  }

  /** A `null` due date is accepted, like an absent one, and an empty tag
      list is accepted. */
  lemma NullDueDateAndNoTagsAccepted(raw: RawCreateTask)
    requires TitleOk(raw.title) && DateOk(raw.scheduledDate) && PriorityOk(raw.priority)
    requires raw.description.None? && raw.dueDate.None? && raw.status.None?
    requires raw.tagIds == Some([])
    ensures Valid(raw)
  {
  }

  /** A body without `tagIds` is rejected, with `tagIds` named. */
  lemma MissingTagIdsRejected(raw: RawCreateTask)
    requires raw.tagIds.None?
    ensures Validate(raw).Err? && TagIds in Validate(raw).error
  {
    assert !FieldOk(raw, TagIds);
    var r := Validate(raw);
    assert r.Err? && r.error == Violations(raw);
  }
}
