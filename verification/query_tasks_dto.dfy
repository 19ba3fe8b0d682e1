/** The field constraints of the task list query string
    (backend/src/tasks/dto/query-tasks.dto.ts). Every field is optional. */
module QueryTasksValidation {
  import opened Wrappers
  import opened Types
  import opened Text

  /** The query parameters, named in validation reports. */
  datatype Param = Date | From | To | Status

  /** `GET /tasks?date=&from=&to=&status=`; `None` is a missing parameter. */
  datatype QueryTasksDto = QueryTasksDto(
    date: Option<string>,
    from: Option<string>,
    to: Option<string>,
    status: Option<string>)

  const EmptyQuery: QueryTasksDto := QueryTasksDto(None, None, None, None)

  predicate DateParamOk(p: Option<string>) {
    p.Some? ==> CharLength(p.value) == 10
  }

  predicate StatusParamOk(p: Option<string>) {
    p.Some? ==> p.value in StatusValues
  }

  /** No order between `from` and `to` is demanded. */
  predicate Valid(q: QueryTasksDto) {
    && DateParamOk(q.date)
    && DateParamOk(q.from)
    && DateParamOk(q.to)
    && StatusParamOk(q.status)
  }

  /** The failing parameters, in declaration order. */
  function Violations(q: QueryTasksDto): (params: seq<Param>)
    ensures Date in params <==> !DateParamOk(q.date)
    ensures From in params <==> !DateParamOk(q.from)
    ensures To in params <==> !DateParamOk(q.to)
    ensures Status in params <==> !StatusParamOk(q.status)
    ensures params == [] <==> Valid(q)
  {
    var params :=
      Failing(DateParamOk(q.date), Date)
      + Failing(DateParamOk(q.from), From)
      + Failing(DateParamOk(q.to), To)
      + Failing(StatusParamOk(q.status), Status);
    params
  }

  function Failing(ok: bool, p: Param): (r: seq<Param>)
    ensures forall g :: g in r <==> !ok && g == p
  {
    if ok then [] else [p]
  }

  /** The empty query is valid. */
  lemma EmptyQueryValid()
    ensures Valid(EmptyQuery)
  {
  }

  /** The client's `all` status sentinel is not a valid query status, and
      neither is an empty parameter (`?date=`), which is present. */
  lemma SentinelAndEmptyRejected(q: QueryTasksDto)
    requires q.status == Some("all") || q.date == Some("")
    ensures !Valid(q)
  {
  }

  /** A range whose `from` lies after its `to` passes validation. */
  lemma InvertedRangeAccepted()
    ensures Valid(QueryTasksDto(None, Some("2025-12-05"), Some("2025-12-01"), None))
  {
    var from, to := "2025-12-05", "2025-12-01";
    assert NoVariationSelectors(from) && NoVariationSelectors(to);
  }
}
