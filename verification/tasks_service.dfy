/** The task service (backend/src/tasks/tasks.service.ts) over an in-memory
    table: a map from task id to task. Prisma's semantics are stated
    directly: a `where` clause selects, `orderBy` sorts, an `undefined` field
    in `data` is ignored. Fresh ids and the current instant are parameters. */
module TasksService {
  import opened Wrappers
  import opened Types
  import opened Text
  import opened QueryTasksValidation

  /** The task table, keyed by id. */
  type Store = map<string, Task>

  /** Every task is stored under its own id. */
  predicate Wf(store: Store) {
    forall id :: id in store ==> store[id].id == id
  }

  /** The message of every NotFound the service throws. */
  const NotFoundMessage: string := "Task not found"

  datatype NotFound = NotFound(message: string)

  /** The table after a call, and what the call returned or threw. */
  datatype Step<T> = Step(store: Store, result: Result<T, NotFound>)

  // ---------------------------------------------------------------- findAll

  /** The `scheduledDate` part of the Prisma `where` clause. */
  datatype DateWhere = AnyDate | OnDate(date: string) | Between(gte: Option<string>, lte: Option<string>)

  /** The Prisma `where` clause `findAll` builds. */
  datatype Where = Where(scheduledDate: DateWhere, status: Option<string>)

  /** Builds the `where` clause: an exact date wins over a range, a range
      bound is set only when given, and a status adds a conjunct. */
  function BuildWhere(q: QueryTasksDto): Where {
    var date :=
      if Present(q.date) then OnDate(q.date.value)
      else if Present(q.from) || Present(q.to) then
        Between(if Present(q.from) then q.from else None, if Present(q.to) then q.to else None)
      else AnyDate;
    Where(date, if Present(q.status) then q.status else None)
  }

  /** Prisma's string filter: `equals`, or inclusive `gte`/`lte` bounds in
      string order. */
  predicate DateMatches(w: DateWhere, date: string) {
    match w
    case AnyDate => true
    case OnDate(d) => date == d
    case Between(gte, lte) =>
      (gte.Some? ==> LexLe(gte.value, date)) && (lte.Some? ==> LexLe(date, lte.value))
  }

  /** Whether a row satisfies a `where` clause. The status column is compared
      with the query string as given. */
  predicate Satisfies(w: Where, t: Task) {
    && DateMatches(w.scheduledDate, t.scheduledDate)
    && (w.status.Some? ==> StatusName(t.status) == w.status.value)
  }

  /** `findAll`'s selection rule for query `q`. */
  predicate Selects(q: QueryTasksDto, t: Task) {
    Satisfies(BuildWhere(q), t)
  }

  /** The status conjunct on its own. */
  predicate StatusCriterion(q: QueryTasksDto, t: Task) {
    Present(q.status) ==> StatusName(t.status) == q.status.value
  }

  /** With a date, exactly the tasks scheduled on it pass the date criterion,
      whatever `from` and `to` say. */
  lemma ExactDateWins(q: QueryTasksDto, t: Task, from: Option<string>, to: Option<string>)
    requires Present(q.date)
    ensures Selects(q, t) <==> t.scheduledDate == q.date.value && StatusCriterion(q, t)
    ensures Selects(q.(from := from, to := to), t) == Selects(q, t)
  {
  }

  /** Without a date, `from` and `to` are inclusive bounds, each applied only
      when given; with neither there is no date restriction. */
  lemma RangeWithoutDate(q: QueryTasksDto, t: Task)
    requires !Present(q.date)
    ensures Selects(q, t) <==>
      && (Present(q.from) ==> LexLe(q.from.value, t.scheduledDate))
      && (Present(q.to) ==> LexLe(t.scheduledDate, q.to.value))
      && StatusCriterion(q, t)
  {
  }

  /** The empty query selects every task. */
  lemma EmptyQuerySelectsAll(t: Task)
    ensures Selects(EmptyQuery, t)
  {
  }

  /** A range whose lower bound lies above its upper bound selects nothing. */
  lemma InvertedRangeSelectsNothing(q: QueryTasksDto, t: Task)
    requires !Present(q.date) && Present(q.from) && Present(q.to)
    requires !LexLe(q.from.value, q.to.value)
    ensures !Selects(q, t)
  {
    if Selects(q, t) {
      LexLeTransitive(q.from.value, t.scheduledDate, q.to.value);
    }
  }

  /** `orderBy: [{ scheduledDate: 'asc' }, { createdAt: 'desc' }]`: `a` may be
      listed before `b`. */
  predicate Precedes(a: Task, b: Task) {
    if a.scheduledDate == b.scheduledDate then a.createdAt >= b.createdAt
    else LexLe(a.scheduledDate, b.scheduledDate)
  }

  lemma PrecedesTotal(a: Task, b: Task)
    ensures Precedes(a, b) || Precedes(b, a)
  {
    LexLeTotal(a.scheduledDate, b.scheduledDate);
  }

  lemma PrecedesTransitive(a: Task, b: Task, c: Task)
    requires Precedes(a, b) && Precedes(b, c)
    ensures Precedes(a, c)
  {
    var x, y, z := a.scheduledDate, b.scheduledDate, c.scheduledDate;
    if x != y && y != z {
      LexLeTransitive(x, y, z);
      if x == z {
        LexLeAntisymmetric(x, y);
      }
    }
  }

  predicate Sorted(s: seq<Task>) {
    forall i, j :: 0 <= i < j < |s| ==> Precedes(s[i], s[j])
  }

  predicate DistinctIds(s: seq<Task>) {
    forall i, j :: 0 <= i < j < |s| ==> s[i].id != s[j].id
  }

  lemma SortedCons(h: Task, s: seq<Task>)
    requires Sorted(s)
    requires forall j :: 0 <= j < |s| ==> Precedes(h, s[j])
    ensures Sorted([h] + s)
  {
    var r := [h] + s;
    forall i, j | 0 <= i < j < |r| ensures Precedes(r[i], r[j]) {
      assert r[j] == s[j - 1];
      if i > 0 {
        assert r[i] == s[i - 1];
      }
    }
  }

  /** A task that may precede the head of a sorted list may precede all of it. */
  lemma PrecedesHeadPrecedesAll(x: Task, s: seq<Task>)
    requires Sorted(s) && |s| > 0 && Precedes(x, s[0])
    ensures forall j :: 0 <= j < |s| ==> Precedes(x, s[j])
  {
    forall j | 0 < j < |s| ensures Precedes(x, s[j]) {
      PrecedesTransitive(x, s[0], s[j]);
    }
  }

  /** Inserts `x` into a sorted list, keeping it sorted; every element of
      the list stays, as often as it occurred, and `x` is added once. */
  function Insert(x: Task, s: seq<Task>): (r: seq<Task>)
    requires Sorted(s)
    ensures Sorted(r)
    ensures |r| == |s| + 1
    ensures forall y :: y in r <==> y == x || y in s
    ensures multiset(r) == multiset(s) + multiset{x}
  {
    if |s| == 0 then [x]
    else if Precedes(x, s[0]) then
      PrecedesHeadPrecedesAll(x, s);
      SortedCons(x, s);
      [x] + s
    else
      PrecedesTotal(x, s[0]);
      var rest := Insert(x, s[1..]);
      HeadPrecedesInserted(x, s, rest);
      SortedCons(s[0], rest);
      assert s == [s[0]] + s[1..];
      assert multiset([s[0]] + rest) == multiset{s[0]} + multiset(rest);
      [s[0]] + rest
  }

  lemma HeadPrecedesInserted(x: Task, s: seq<Task>, rest: seq<Task>)
    requires Sorted(s) && |s| > 0 && Precedes(s[0], x)
    requires forall y :: y in rest <==> y == x || y in s[1..]
    ensures forall j :: 0 <= j < |rest| ==> Precedes(s[0], rest[j])
  {
    forall j | 0 <= j < |rest| ensures Precedes(s[0], rest[j]) {
      var y := rest[j];
      assert y in rest;
      if y != x {
        var k :| 0 <= k < |s[1..]| && s[1..][k] == y;
        assert s[k + 1] == y;
      }
    }
  }

  /** Inserting a task whose id is new into a list with distinct ids keeps
      the ids distinct. */
  lemma {:induction false} InsertDistinct(x: Task, s: seq<Task>)
    requires Sorted(s) && DistinctIds(s)
    requires forall j :: 0 <= j < |s| ==> s[j].id != x.id
    ensures DistinctIds(Insert(x, s))
  {
    if |s| > 0 && !Precedes(x, s[0]) {
      InsertDistinct(x, s[1..]);
      var rest := Insert(x, s[1..]);
      HeadIdNotInRest(x, s, rest);
      DistinctCons(s[0], rest);
    }
  }

  lemma HeadIdNotInRest(x: Task, s: seq<Task>, rest: seq<Task>)
    requires DistinctIds(s) && |s| > 0 && s[0].id != x.id
    requires forall y :: y in rest <==> y == x || y in s[1..]
    ensures forall j :: 0 <= j < |rest| ==> rest[j].id != s[0].id
  {
    forall j | 0 <= j < |rest| ensures rest[j].id != s[0].id {
      var y := rest[j];
      assert y in rest;
      if y != x {
        var k :| 0 <= k < |s[1..]| && s[1..][k] == y;
        assert s[k + 1] == y;
      }
    }
  }

  lemma DistinctCons(h: Task, s: seq<Task>)
    requires DistinctIds(s)
    requires forall j :: 0 <= j < |s| ==> s[j].id != h.id
    ensures DistinctIds([h] + s)
  {
    var r := [h] + s;
    forall i, j | 0 <= i < j < |r| ensures r[i].id != r[j].id {
      assert r[j] == s[j - 1];
      if i > 0 {
        assert r[i] == s[i - 1];
      }
    }
  }

  /** Under `Wf`, a task is stored exactly when its id maps to it. */
  lemma StoredUnderOwnId(store: Store, t: Task)
    requires Wf(store)
    ensures t in store.Values <==> t.id in store && store[t.id] == t
  {
    if t in store.Values {
      var k :| k in store && store[k] == t;
    }
  }

  /** `findAll`: the tasks the query selects, each once, ordered by
      scheduled date ascending and then by creation time descending. */
  method FindAll(store: Store, q: QueryTasksDto) returns (r: seq<Task>)
    requires Wf(store)
    ensures Sorted(r)
    ensures DistinctIds(r)
    ensures forall t :: t in r <==> t in store.Values && Selects(q, t)
  {
    r := [];
    var pending := store.Keys;
    while pending != {}
      invariant pending <= store.Keys
      invariant Sorted(r) && DistinctIds(r)
      invariant forall t :: t in r <==> t.id in store && t.id !in pending && store[t.id] == t && Selects(q, t)
      decreases pending
    {
      var id :| id in pending;
      var t := store[id];
      if Selects(q, t) {
        InsertDistinct(t, r);
        r := Insert(t, r);
      }
      pending := pending - {id};
    }
    forall t ensures t in r <==> t in store.Values && Selects(q, t) {
      StoredUnderOwnId(store, t);
    }
  }

  // ------------------------------------------------ findOne / ensureExists

  /** `findOne`: the stored task, or NotFound. */
  function FindOne(store: Store, id: string): (r: Result<Task, NotFound>)
    ensures r.Ok? <==> id in store
    ensures r.Ok? ==> r.value == store[id]
    ensures r.Err? ==> r.error == NotFound(NotFoundMessage)
  {
    if id in store then Ok(store[id]) else Err(NotFound(NotFoundMessage))
  }

  /** `ensureExists`: passes exactly when the id is stored. */
  function EnsureExists(store: Store, id: string): (r: Outcome<NotFound>)
    ensures r.Pass? <==> id in store
    ensures r.Fail? ==> r.error == NotFound(NotFoundMessage)
  {
    if id in store then Pass else Fail(NotFound(NotFoundMessage))
  }

  // ----------------------------------------------------------------- create

  /** `create`: stores one new task under the fresh id `freshId` at instant
      `now`. The status defaults to planned, the tag list to empty, and an
      absent description or due date is stored as null. */
  function Create(store: Store, dto: CreateTaskPayload, freshId: string, now: Timestamp): (s: Step<Task>)
    requires freshId !in store
    ensures s.result.Ok?
    ensures var t := s.result.value;
      && t.id == freshId
      && t.title == dto.title
      && t.description == dto.description
      && t.scheduledDate == dto.scheduledDate
      && t.dueDate == dto.dueDate
      && t.priority == dto.priority
      && (dto.status.Some? ==> t.status == dto.status.value)
      && (dto.status.None? ==> t.status == Planned)
      && (dto.tagIds.Some? ==> t.tagIds == dto.tagIds.value)
      && (dto.tagIds.None? ==> t.tagIds == [])
      && t.createdAt == now && t.updatedAt == now
      && s.store == store[freshId := t]
    ensures |s.store| == |store| + 1
    ensures Wf(store) ==> Wf(s.store)
  {
    var t := Task(freshId, dto.title, dto.description, dto.status.GetOr(Planned), dto.priority,
                  dto.scheduledDate, dto.dueDate, dto.tagIds.GetOr([]), now, now);
    Step(store[freshId := t], Ok(t))
  }

  // ----------------------------------------------------------------- update

  /** Prisma's update with `{...patch, updatedAt: now}`: every field the patch
      carries is overwritten, every absent one is kept. */
  function Merge(current: Task, patch: TaskPatch, now: Timestamp): Task {
    current.(
      title := patch.title.GetOr(current.title),
      description := if patch.description.Some? then patch.description else current.description,
      status := patch.status.GetOr(current.status),
      priority := patch.priority.GetOr(current.priority),
      scheduledDate := patch.scheduledDate.GetOr(current.scheduledDate),
      dueDate := if patch.dueDate.Some? then patch.dueDate else current.dueDate,
      tagIds := patch.tagIds.GetOr(current.tagIds),
      updatedAt := now)
  }

  /** `update`: NotFound, with nothing changed, for an unknown id; otherwise
      the stored task takes the patch's fields, keeps the rest, keeps its id
      and creation time, gets `updatedAt == now`, and no other task moves. */
  function Update(store: Store, id: string, patch: TaskPatch, now: Timestamp): (s: Step<Task>)
    ensures s.result.Err? <==> id !in store
    ensures s.result.Err? ==> s.store == store && s.result.error == NotFound(NotFoundMessage)
    ensures s.result.Ok? ==> var current, t := store[id], s.result.value;
      && s.store == store[id := t]
      && t.id == current.id && t.createdAt == current.createdAt && t.updatedAt == now
      && (patch.title.Some? ==> t.title == patch.title.value)
      && (patch.title.None? ==> t.title == current.title)
      && (patch.description.Some? ==> t.description == patch.description)
      && (patch.description.None? ==> t.description == current.description)
      && (patch.status.Some? ==> t.status == patch.status.value)
      && (patch.status.None? ==> t.status == current.status)
      && (patch.priority.Some? ==> t.priority == patch.priority.value)
      && (patch.priority.None? ==> t.priority == current.priority)
      && (patch.scheduledDate.Some? ==> t.scheduledDate == patch.scheduledDate.value)
      && (patch.scheduledDate.None? ==> t.scheduledDate == current.scheduledDate)
      && (patch.dueDate.Some? ==> t.dueDate == patch.dueDate)
      && (patch.dueDate.None? ==> t.dueDate == current.dueDate)
      && (patch.tagIds.Some? ==> t.tagIds == patch.tagIds.value)
      && (patch.tagIds.None? ==> t.tagIds == current.tagIds)
    ensures Wf(store) ==> Wf(s.store)
  {
    match EnsureExists(store, id)
    case Fail(e) => Step(store, Err(e))
    case Pass =>
      var t := Merge(store[id], patch, now);
      Step(store[id := t], Ok(t))
  }

  /** An empty patch only refreshes `updatedAt`. */
  lemma NoChangesOnlyTouches(store: Store, id: string, now: Timestamp)
    requires id in store
    ensures Update(store, id, NoChanges, now).result == Ok(store[id].(updatedAt := now))
  {
  }

  /** Applying the same patch twice at the same instant equals applying it
      once. */
  lemma UpdateIdempotent(store: Store, id: string, patch: TaskPatch, now: Timestamp)
    ensures var once := Update(store, id, patch, now);
      Update(once.store, id, patch, now) == once
  {
    var once := Update(store, id, patch, now);
    if id in store {
      var t := once.result.value;
      assert Merge(t, patch, now) == t;
      assert once.store[id := t] == once.store;
    }
  }

  /** The service's unit-test scenario: task `u1` patched with a status and a
      tag list keeps its title, description, priority, dates and id, takes the
      new status and replaces its tag list wholesale. */
  lemma UpdateKeepsOmittedFields(store: Store, now: Timestamp)
    requires "u1" in store
    requires var u := store["u1"];
      && u.title == "OLD" && u.description == Some("OLD_DESC") && u.status == Planned
      && u.priority == Low && u.scheduledDate == "2025-12-01" && u.dueDate.None?
      && u.tagIds == ["old"]
    ensures var s := Update(store, "u1", NoChanges.(status := Some(Done), tagIds := Some(["work"])), now);
      && s.result.Ok?
      && var t := s.result.value;
      && t.id == store["u1"].id && t.title == "OLD" && t.description == Some("OLD_DESC")
      && t.status == Done && t.priority == Low && t.scheduledDate == "2025-12-01"
      && t.dueDate.None? && t.tagIds == ["work"]
  {
  }

  // ----------------------------------------------------------------- remove

  /** `remove`: NotFound, with nothing changed, for an unknown id; otherwise
      exactly that task leaves the table. */
  function Remove(store: Store, id: string): (s: Step<()>)
    ensures s.result.Err? <==> id !in store
    ensures s.result.Err? ==> s.store == store && s.result.error == NotFound(NotFoundMessage)
    ensures s.result.Ok? ==>
      && id !in s.store
      && s.store.Keys == store.Keys - {id}
      && (forall k :: k in s.store ==> s.store[k] == store[k])
    ensures Wf(store) ==> Wf(s.store)
  {
    match EnsureExists(store, id)
    case Fail(e) => Step(store, Err(e))
    case Pass => Step(store - {id}, Ok(()))
  }

  // ------------------------------------------------- relations between calls

  /** A created task is found under its id. */
  lemma FindOneAfterCreate(store: Store, dto: CreateTaskPayload, freshId: string, now: Timestamp)
    requires freshId !in store
    ensures var s := Create(store, dto, freshId, now);
      FindOne(s.store, freshId) == s.result
  {
  }

  /** Removing a task just created restores the table. */
  lemma RemoveUndoesCreate(store: Store, dto: CreateTaskPayload, freshId: string, now: Timestamp)
    requires freshId !in store
    ensures Remove(Create(store, dto, freshId, now).store, freshId).store == store
  {
    var s := Create(store, dto, freshId, now).store;
    assert s - {freshId} == store;
  }

  /** After a remove, the id is unknown to every later call. */
  lemma RemovedIsNotFound(store: Store, id: string, patch: TaskPatch, now: Timestamp)
    requires id in store
    ensures var s := Remove(store, id).store;
      && FindOne(s, id).Err?
      && Update(s, id, patch, now).result.Err?
      && Remove(s, id).result.Err?
  {
  }
}
