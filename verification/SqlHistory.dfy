/**
 The generated WHERE clauses under SQL's three-valued logic, and the history query built from them.
 */
module SqlHistory {
  import opened Prelude
  import opened JsonText
  import opened Lifecycle
  import opened Sorting
  import opened PostgresRows
  import Pagination

  datatype Truth = True | False | Unknown

  function And(a: Truth, b: Truth): Truth {
    if a == False || b == False then False
    else if a == True && b == True then True
    else Unknown
  }

  datatype Column =
    | TenantId | ActorId | ActorType | TargetType | TargetId | NameColumn | StatusColumn

  datatype Value = TextValue(text: Text) | StatusValue(status: Status) | TimeValue(time: int) | IntValue(n: int)

  /** `column = $param`, or the keyset comparison with the cursor's creation time and id. */
  datatype Condition = Equals(column: Column, param: nat) | Earlier(createdAt: nat, id: nat)

  /** A column's value, absent when it is NULL. */
  function ColumnValue(row: Row, column: Column): Option<Value> {
    match column
    case TenantId => if row.tenantId.Some? then Some(TextValue(row.tenantId.value)) else None
    case ActorId => Some(TextValue(row.actorId))
    case ActorType => Some(TextValue(row.actorType))
    case TargetType => if row.targetType.Some? then Some(TextValue(row.targetType.value)) else None
    case TargetId => if row.targetId.Some? then Some(TextValue(row.targetId.value)) else None
    case NameColumn => Some(TextValue(row.name))
    case StatusColumn => Some(StatusValue(row.status))
  }

  function FromBool(b: bool): Truth {
    if b then True else False
  }

  /** NULL compares as unknown. */
  function SqlEquals(column: Option<Value>, value: Value): Truth {
    if column.None? then Unknown else FromBool(column.value == value)
  }

  /** `$n`, counting from one. */
  function Bound(values: seq<Value>, param: nat): Option<Value> {
    if 1 <= param <= |values| then Some(values[param - 1]) else None
  }

  function EvalCondition(c: Condition, values: seq<Value>, row: Row, compareIds: (Text, Text) -> int): Truth {
    match c
    case Equals(column, param) =>
      (match Bound(values, param)
       case Some(v) => SqlEquals(ColumnValue(row, column), v)
       case None => Unknown)
    case Earlier(createdAt, id) =>
      (match (Bound(values, createdAt), Bound(values, id))
       case (Some(TimeValue(t)), Some(TextValue(i))) =>
         FromBool(row.createdAt < t || (row.createdAt == t && compareIds(row.id, i) < 0))
       case _ => Unknown)
  }

  /** The conditions joined by AND; no WHERE at all when there is none. */
  function EvalWhere(cs: seq<Condition>, values: seq<Value>, row: Row, compareIds: (Text, Text) -> int): Truth {
    if cs == [] then True
    else
      var n := |cs| - 1;
      And(EvalWhere(cs[..n], values, row, compareIds), EvalCondition(cs[n], values, row, compareIds))
  }

  predicate Within(c: Condition, count: nat) {
    match c
    case Equals(_, param) => 1 <= param <= count
    case Earlier(t, i) => 1 <= t <= count && 1 <= i <= count
  }

  lemma {:induction false} WhereStable(cs: seq<Condition>, values: seq<Value>, more: seq<Value>, row: Row,
                                      compareIds: (Text, Text) -> int)
    requires forall c | c in cs :: Within(c, |values|)
    ensures EvalWhere(cs, values + more, row, compareIds) == EvalWhere(cs, values, row, compareIds)
    decreases |cs|
  {
    if cs != [] {
      var n := |cs| - 1;
      assert cs[n] in cs;
      WhereStable(cs[..n], values, more, row, compareIds);
    }
  }

  /** One more condition on a value just bound keeps what the clause kept, narrowed by that condition. */
  lemma ConditionAppended(cs: seq<Condition>, values: seq<Value>, column: Column, value: Value, row: Row,
                          compareIds: (Text, Text) -> int)
    requires forall c | c in cs :: Within(c, |values|)
    ensures EvalWhere(cs + [Equals(column, |values| + 1)], values + [value], row, compareIds) == True
      <==> EvalWhere(cs, values, row, compareIds) == True && ColumnValue(row, column) == Some(value)
  {
    WhereStable(cs, values, [value], row, compareIds);
    assert (cs + [Equals(column, |values| + 1)])[..|cs|] == cs;
  }

  lemma KeysetAppended(cs: seq<Condition>, values: seq<Value>, createdAt: int, id: Text, row: Row,
                       compareIds: (Text, Text) -> int)
    requires forall c | c in cs :: Within(c, |values|)
    ensures EvalWhere(cs + [Earlier(|values| + 1, |values| + 2)], values + [TimeValue(createdAt), TextValue(id)], row,
                      compareIds) == True
      <==> && EvalWhere(cs, values, row, compareIds) == True
           && (row.createdAt < createdAt || (row.createdAt == createdAt && compareIds(row.id, id) < 0))
  {
    WhereStable(cs, values, [TimeValue(createdAt), TextValue(id)], row, compareIds);
    assert (cs + [Earlier(|values| + 1, |values| + 2)])[..|cs|] == cs;
  }

  /** The list of conditions and values that `addCondition` pushes onto. */
  class ConditionBuilder {
    const compareIds: (Text, Text) -> int
    var values: seq<Value>
    var conditions: seq<Condition>
    /** Which rows the clause built so far keeps. */
    ghost var keeps: Row -> bool

    ghost predicate Valid()
      reads this
    {
      && (forall c | c in conditions :: Within(c, |values|))
      && (forall row :: EvalWhere(conditions, values, row, compareIds) == True <==> keeps(row))
    }

    /** `first` are the values already bound before any condition. */
    constructor (first: seq<Value>, compareIds: (Text, Text) -> int)
      ensures Valid() && values == first && conditions == [] && this.compareIds == compareIds
      ensures forall row :: keeps(row)
    {
      this.compareIds := compareIds;
      values := first;
      conditions := [];
      keeps := (row: Row) => true;
    }

    /** The placeholder is numbered after its value is pushed. */
    method AddCondition(column: Column, value: Value)
      requires Valid()
      modifies this
      ensures Valid()
      ensures values == old(values) + [value]
      ensures conditions == old(conditions) + [Equals(column, |values|)]
      ensures forall row :: keeps(row) <==> old(keeps)(row) && ColumnValue(row, column) == Some(value)
    {
      hide EvalWhere, ColumnValue;
      ghost var before := keeps;
      values := values + [value];
      conditions := conditions + [Equals(column, |values|)];
      keeps := (row: Row) => before(row) && ColumnValue(row, column) == Some(value);
      forall row ensures EvalWhere(conditions, values, row, compareIds) == True <==> keeps(row) {
        ConditionAppended(old(conditions), old(values), column, value, row, compareIds);
      }
    }

    method AddKeyset(createdAt: int, id: Text)
      requires Valid()
      modifies this
      ensures Valid()
      ensures values == old(values) + [TimeValue(createdAt), TextValue(id)]
      ensures conditions == old(conditions) + [Earlier(|values| - 1, |values|)]
      ensures forall row :: keeps(row) <==>
        old(keeps)(row) && (row.createdAt < createdAt || (row.createdAt == createdAt && compareIds(row.id, id) < 0))
    {
      hide EvalWhere;
      ghost var before := keeps;
      var cmp := compareIds;
      values := values + [TimeValue(createdAt)];
      var createdAtParameter := |values|;
      values := values + [TextValue(id)];
      conditions := conditions + [Earlier(createdAtParameter, |values|)];
      keeps := (row: Row) =>
        before(row) && (row.createdAt < createdAt || (row.createdAt == createdAt && cmp(row.id, id) < 0));
      assert values == old(values) + [TimeValue(createdAt), TextValue(id)];
      forall row ensures EvalWhere(conditions, values, row, compareIds) == True <==> keeps(row) {
        KeysetAppended(old(conditions), old(values), createdAt, id, row, compareIds);
      }
    }
  }

  /** What a history query's column conditions say about a row. */
  predicate ColumnsMatch(row: Row, q: Pagination.HistoryQuery) {
    OwnerColumnsMatch(row, q) && SubjectColumnsMatch(row, q)
  }

  predicate OwnerColumnsMatch(row: Row, q: Pagination.HistoryQuery) {
    && (q.tenantId.Some? ==> row.tenantId == q.tenantId)
    && (q.actorId.Some? ==> row.actorId == q.actorId.value)
    && (q.actorType.Some? ==> row.actorType == q.actorType.value)
  }

  predicate SubjectColumnsMatch(row: Row, q: Pagination.HistoryQuery) {
    && (q.targetType.Some? ==> row.targetType == q.targetType)
    && (q.targetId.Some? ==> row.targetId == q.targetId)
    && (q.name.Some? ==> row.name == q.name.value)
    && (q.status.Some? ==> row.status == q.status.value)
  }

  /** The filters of a history query, pushed in order. */
  method AddFilters(b: ConditionBuilder, q: Pagination.HistoryQuery)
    requires b.Valid()
    modifies b
    ensures b.Valid()
    ensures forall row :: b.keeps(row) <==> old(b.keeps)(row) && ColumnsMatch(row, q)
  {
    hide EvalWhere, OwnerColumnsMatch, SubjectColumnsMatch;
    AddOwnerFilters(b, q);
    AddSubjectFilters(b, q);
  }

  method AddOwnerFilters(b: ConditionBuilder, q: Pagination.HistoryQuery)
    requires b.Valid()
    modifies b
    ensures b.Valid()
    ensures forall row :: b.keeps(row) <==> old(b.keeps)(row) && OwnerColumnsMatch(row, q)
  {
    hide EvalWhere;
    if q.tenantId.Some? {
      b.AddCondition(TenantId, TextValue(q.tenantId.value));
    }
    if q.actorId.Some? {
      b.AddCondition(ActorId, TextValue(q.actorId.value));
    }
    if q.actorType.Some? {
      b.AddCondition(ActorType, TextValue(q.actorType.value));
    }
  }

  method AddSubjectFilters(b: ConditionBuilder, q: Pagination.HistoryQuery)
    requires b.Valid()
    modifies b
    ensures b.Valid()
    ensures forall row :: b.keeps(row) <==> old(b.keeps)(row) && SubjectColumnsMatch(row, q)
  {
    hide EvalWhere;
    if q.targetType.Some? {
      b.AddCondition(TargetType, TextValue(q.targetType.value));
    }
    if q.targetId.Some? {
      b.AddCondition(TargetId, TextValue(q.targetId.value));
    }
    if q.name.Some? {
      b.AddCondition(NameColumn, TextValue(q.name.value));
    }
    if q.status.Some? {
      b.AddCondition(StatusColumn, StatusValue(q.status.value));
    }
  }

  /** On rows that satisfy the audit constraints, the columns match just when the record does. */
  lemma ColumnsMatchRecord(row: Row, q: Pagination.HistoryQuery)
    requires ColumnsAgree(row)
    ensures ColumnsMatch(row, q) <==> Pagination.MatchesHistory(RunOf(row), q)
  {
  }

  // ---------------------------------------------------------------- running the query

  function Records(rows: seq<Row>): (r: seq<ActionRun>)
    ensures |r| == |rows|
    ensures forall i :: 0 <= i < |r| ==> r[i] == RunOf(rows[i])
  {
    seq(|rows|, i requires 0 <= i < |rows| => RunOf(rows[i]))
  }

  /** `FROM table WHERE ...`, mapped to records. */
  function Selected(rows: seq<Row>, cs: seq<Condition>, values: seq<Value>, compareIds: (Text, Text) -> int)
    : seq<ActionRun>
  {
    if rows == [] then []
    else
      (if EvalWhere(cs, values, rows[0], compareIds) == True then [RunOf(rows[0])] else []) +
      Selected(rows[1..], cs, values, compareIds)
  }

  /** `SELECT ... WHERE ... ORDER BY created_at DESC, id DESC LIMIT $n`; a limit that is no integer fails. */
  function Execute(rows: seq<Row>, cs: seq<Condition>, values: seq<Value>, limit: Option<nat>,
                   compareIds: (Text, Text) -> int): Option<seq<ActionRun>> {
    var ordered := Sort(Selected(rows, cs, values, compareIds), Pagination.NewestFirst(compareIds));
    if limit.None? then Some(ordered)
    else
      match Bound(values, limit.value)
      case Some(IntValue(n)) => Some(Pagination.Limited(ordered, Some(n)))
      case _ => None
  }

  /** Filtering rows and then mapping them is mapping them and then filtering. */
  lemma {:induction false} SelectedIsFilter(rows: seq<Row>, cs: seq<Condition>, values: seq<Value>,
                                           compareIds: (Text, Text) -> int, p: ActionRun -> bool)
    requires forall row | row in rows ::
      EvalWhere(cs, values, row, compareIds) == True <==> p(RunOf(row))
    ensures Selected(rows, cs, values, compareIds) == Pagination.Filter(Records(rows), p)
    decreases |rows|
  {
    if rows != [] {
      assert rows[0] in rows;
      SelectedIsFilter(rows[1..], cs, values, compareIds, p);
      assert Records(rows)[1..] == Records(rows[1..]);
    }
  }

  /** The WHERE clause of a history query: its filters, then the keyset condition when the cursor counts. */
  method BuildWhere(rows: seq<Row>, q: Pagination.HistoryQuery, compareIds: (Text, Text) -> int)
    returns (b: ConditionBuilder)
    requires forall row | row in rows :: ColumnsAgree(row)
    ensures fresh(b) && b.Valid() && b.compareIds == compareIds
    ensures var cursor := Pagination.CursorRun(Records(rows), q);
      forall row | row in rows :: EvalWhere(b.conditions, b.values, row, compareIds) == True
        <==> && Pagination.MatchesHistory(RunOf(row), q)
             && (cursor.Some? ==> Pagination.NewestFirst(compareIds)(cursor.value, RunOf(row)) < 0)
  {
    hide EvalWhere, RunOf, ColumnsAgree, ColumnsMatch, Pagination.MatchesHistory;
    b := new ConditionBuilder([], compareIds);
    AddFilters(b, q);
    var cursor := Pagination.CursorRun(Records(rows), q);
    if cursor.Some? {
      b.AddKeyset(cursor.value.createdAt, cursor.value.id);
    }
    forall row | row in rows
      ensures EvalWhere(b.conditions, b.values, row, compareIds) == True
        <==> && Pagination.MatchesHistory(RunOf(row), q)
             && (cursor.Some? ==> Pagination.NewestFirst(compareIds)(cursor.value, RunOf(row)) < 0)
    {
      ColumnsMatchRecord(row, q);
      RecordKey(row);
      if cursor.Some? {
        LaterInSql(cursor.value, RunOf(row), compareIds);
      }
    }
  }

  /**
   The history query of the database adapter, under the database's own order of ids. For every
   filter, cursor (missing or not matching included) and limit it returns the keyset page, which
   `Pagination.StoresAgreeIff` compares over all cursors and limits with an in-memory store that
   has the same runs in an order of its own; in the agreeing case it returns that store's page.
   */
  method QueryActionRuns(rows: seq<Row>, q: Pagination.HistoryQuery, compareIds: (Text, Text) -> int,
                         ghost stored: seq<ActionRun>, ghost memoryOrder: (Text, Text) -> int)
    returns (page: Option<seq<ActionRun>>)
    requires forall row | row in rows :: ColumnsAgree(row)
    requires Pagination.DistinctIds(Records(rows)) && Pagination.DistinctIds(stored)
    requires forall r :: r in Records(rows) <==> r in stored
    requires Consistent(compareIds) && Consistent(memoryOrder)
    ensures page == Some(Pagination.KeysetPage(Records(rows), q, compareIds))
    ensures var rest := Pagination.KeysetMatching(Records(rows), q, compareIds);
      page == Some(rest[..Pagination.Count(q.limit, |rest|)])
    ensures var hits := Pagination.Hits(stored, q);
      Pagination.IdsApart(hits, compareIds) && Pagination.StayAlike(hits, compareIds, memoryOrder) ==>
      page == Some(Pagination.MemoryPage(stored, q, memoryOrder))
  {
    hide EvalWhere, RunOf, ColumnsAgree, ColumnsMatch, Pagination.MatchesHistory, Sort, Consistent, Pagination.MemoryPage;
    hide Pagination.Hits, Pagination.IdsApart, Pagination.StayAlike, Pagination.DistinctIds;
    ghost var hits := Pagination.Hits(stored, q);
    Pagination.LimitedIs(Pagination.KeysetMatching(Records(rows), q, compareIds), q.limit);
    if Pagination.IdsApart(hits, compareIds) && Pagination.StayAlike(hits, compareIds, memoryOrder) {
      Pagination.StoresAgree(Records(rows), stored, q, q, compareIds, memoryOrder);
    }
    if q.limit.Some? && q.limit.value <= 0 {
      return Some([]);
    }
    var b := BuildWhere(rows, q, compareIds);
    var cursor, order := Pagination.CursorRun(Records(rows), q), Pagination.NewestFirst(compareIds);
    var p := (r: ActionRun) =>
      Pagination.MatchesHistory(r, q) && (cursor.Some? ==> order(cursor.value, r) < 0);
    SelectedIsFilter(rows, b.conditions, b.values, compareIds, p);
    if q.limit.Some? {
      var limited := b.values + [IntValue(q.limit.value)];
      SelectedStable(rows, b.conditions, b.values, [IntValue(q.limit.value)], compareIds);
      page := Execute(rows, b.conditions, limited, Some(|limited|), compareIds);
    } else {
      page := Execute(rows, b.conditions, b.values, None, compareIds);
    }
  }

  /** Binding the limit last disturbs no condition. */
  lemma {:induction false} SelectedStable(rows: seq<Row>, cs: seq<Condition>, values: seq<Value>, more: seq<Value>,
                                         compareIds: (Text, Text) -> int)
    requires forall c | c in cs :: Within(c, |values|)
    ensures Selected(rows, cs, values + more, compareIds) == Selected(rows, cs, values, compareIds)
    decreases |rows|
  {
    if rows != [] {
      WhereStable(cs, values, more, rows[0], compareIds);
      SelectedStable(rows[1..], cs, values, more, compareIds);
    }
  }

  lemma RecordKey(row: Row)
    ensures RunOf(row).createdAt == row.createdAt && RunOf(row).id == row.id
  {
  }

  /** Being later in query order is the keyset comparison of the generated clause. */
  lemma LaterInSql(cursor: ActionRun, run: ActionRun, compareIds: (Text, Text) -> int)
    ensures Pagination.NewestFirst(compareIds)(cursor, run) < 0
      <==> run.createdAt < cursor.createdAt
           || (run.createdAt == cursor.createdAt && compareIds(run.id, cursor.id) < 0)
  {
  }
}
