/** The partial update statement: numbered assignments and the values they refer to. */
module SqlUpdate {
  import opened Prelude
  import opened JsonText
  import opened Lifecycle
  import opened PostgresRows

  datatype Column =
    | StatusColumn | ExecutedAt | UndoStartedAt | UndoneAt | UndoneBy
    | ResultColumn | UndoResultColumn | ErrorColumn | MetadataColumn

  /** A bound parameter; JSON ones are sent as text and cast with `::jsonb`. */
  datatype Value =
    | IdValue(id: Text)
    | StatusValue(status: Status)
    | TimeValue(time: int)
    | ActorJson(actor: Actor)
    | JsonText(json: Json)
    | ErrorJson(code: ErrorCode)
    | MetadataJson(metadata: Metadata)

  /** `column = $param`; parameters count from one. */
  datatype Assignment = Assignment(column: Column, param: nat)

  /** Whether the database accepts the value for the column. */
  predicate Fits(column: Column, value: Value) {
    match column
    case StatusColumn => value.StatusValue?
    case ExecutedAt => value.TimeValue?
    case UndoStartedAt => value.TimeValue?
    case UndoneAt => value.TimeValue?
    case UndoneBy => value.ActorJson?
    case ResultColumn => value.JsonText?
    case UndoResultColumn => value.JsonText?
    case ErrorColumn => value.ErrorJson?
    case MetadataColumn => value.MetadataJson?
  }

  /** The row with one column set; a value of the wrong kind changes nothing. */
  function SetColumn(row: Row, column: Column, value: Value): Row {
    if !Fits(column, value) then row
    else
      match column
      case StatusColumn => row.(status := value.status)
      case ExecutedAt => row.(executedAt := Some(value.time))
      case UndoStartedAt => row.(undoStartedAt := Some(value.time))
      case UndoneAt => row.(undoneAt := Some(value.time))
      case UndoneBy => row.(undoneBy := Some(value.actor))
      case ResultColumn => row.(result := Some(value.json))
      case UndoResultColumn => row.(undoResult := Some(value.json))
      case ErrorColumn => row.(error := Some(value.code))
      case MetadataColumn => row.(metadata := Some(value.metadata))
  }

  /** Evaluate the SET list against the bound values. */
  function Evaluate(row: Row, assignments: seq<Assignment>, values: seq<Value>): Row {
    if assignments == [] then row
    else
      var n := |assignments| - 1;
      var before := Evaluate(row, assignments[..n], values);
      var a := assignments[n];
      if 1 <= a.param <= |values| then SetColumn(before, a.column, values[a.param - 1]) else before
  }

  /** Later values do not disturb the assignments already built. */
  lemma {:induction false} EvaluateStable(row: Row, assignments: seq<Assignment>, values: seq<Value>,
                                         more: seq<Value>)
    requires forall a | a in assignments :: 1 <= a.param <= |values|
    ensures Evaluate(row, assignments, values + more) == Evaluate(row, assignments, values)
    decreases |assignments|
  {
    if assignments != [] {
      var n := |assignments| - 1;
      assert assignments[n] in assignments;
      EvaluateStable(row, assignments[..n], values, more);
    }
  }

  /** A partial update with one more field. */
  function SetField(u: UpdateInput, column: Column, value: Value): UpdateInput
    requires Fits(column, value)
  {
    match column
    case StatusColumn => u.(status := Some(value.status))
    case ExecutedAt => u.(executedAt := Some(value.time))
    case UndoStartedAt => u.(undoStartedAt := Some(value.time))
    case UndoneAt => u.(undoneAt := Some(value.time))
    case UndoneBy => u.(undoneBy := Some(value.actor))
    case ResultColumn => u.(result := Some(value.json))
    case UndoResultColumn => u.(undoResult := Some(value.json))
    case ErrorColumn => u.(error := Some(value.code))
    case MetadataColumn => u.(metadata := Some(value.metadata))
  }

  /** Setting a column and reading back is merging one field, a JSON null included. */
  lemma SetColumnMerges(row: Row, u: UpdateInput, before: Row, column: Column, value: Value)
    requires Fits(column, value) && RunOf(before) == Merge(RunOf(row), u)
    ensures RunOf(SetColumn(before, column, value)) == Merge(RunOf(row), SetField(u, column, value))
    ensures ColumnsAgree(SetColumn(before, column, value)) == ColumnsAgree(before)
  {
  }

  /** The closure that numbers a placeholder by the length of the values pushed so far. */
  class UpdateBuilder {
    const id: Text
    var values: seq<Value>
    var assignments: seq<Assignment>
    /** The partial update built so far. */
    ghost var update: UpdateInput

    /** Each placeholder is the next one, and evaluating the list is merging the update. */
    ghost predicate Valid()
      reads this
    {
      && |values| == |assignments| + 1 && values[0] == IdValue(id)
      && (assignments == [] <==> update == NO_UPDATE)
      && (forall i :: 0 <= i < |assignments| ==>
            assignments[i].param == i + 2 && Fits(assignments[i].column, values[i + 1]))
      && (forall row :: Means(row, assignments, values, update))
    }

    constructor (id: Text)
      ensures Valid() && this.id == id && assignments == [] && update == NO_UPDATE
    {
      this.id := id;
      values := [IdValue(id)];
      assignments := [];
      update := NO_UPDATE;
    }

    method PushAssignment(column: Column, value: Value)
      requires Valid() && Fits(column, value)
      modifies this
      ensures Valid()
      ensures values == old(values) + [value]
      ensures assignments == old(assignments) + [Assignment(column, |values|)]
      ensures update == SetField(old(update), column, value)
    {
      values := values + [value];
      assignments := assignments + [Assignment(column, |values|)];
      update := SetField(update, column, value);
      forall row ensures Means(row, assignments, values, update) {
        PushMeans(row, old(assignments), old(values), old(update), column, value);
      }
    }
  }

  /** Evaluating the assignments on a row and reading back merges the update into its record. */
  ghost predicate Means(row: Row, assignments: seq<Assignment>, values: seq<Value>, u: UpdateInput) {
    && RunOf(Evaluate(row, assignments, values)) == Merge(RunOf(row), u)
    && ColumnsAgree(Evaluate(row, assignments, values)) == ColumnsAgree(row)
  }

  lemma PushMeans(row: Row, assignments: seq<Assignment>, values: seq<Value>, u: UpdateInput,
                  column: Column, value: Value)
    requires forall i :: 0 <= i < |assignments| ==> assignments[i].param == i + 2
    requires |values| == |assignments| + 1 && Fits(column, value)
    requires Means(row, assignments, values, u)
    ensures Means(row, assignments + [Assignment(column, |values| + 1)], values + [value],
                  SetField(u, column, value))
  {
    hide MapRow, Merge, SetColumn, ColumnsAgree, SetField;
    var more := assignments + [Assignment(column, |values| + 1)];
    EvaluateStable(row, assignments, values, [value]);
    assert more[..|assignments|] == assignments;
    var before := Evaluate(row, assignments, values);
    assert Evaluate(row, more, values + [value]) == SetColumn(before, column, value);
    SetColumnMerges(row, u, before, column, value);
  }

  method PushStatusAndTimes(b: UpdateBuilder, u: UpdateInput)
    requires b.Valid()
    modifies b
    ensures b.Valid()
    ensures b.update == old(b.update).(
      status := Replace(u.status, old(b.update).status),
      executedAt := Replace(u.executedAt, old(b.update).executedAt),
      undoStartedAt := Replace(u.undoStartedAt, old(b.update).undoStartedAt),
      undoneAt := Replace(u.undoneAt, old(b.update).undoneAt))
  {
    hide Means;
    if u.status.Some? {
      b.PushAssignment(StatusColumn, StatusValue(u.status.value));
    }
    if u.executedAt.Some? {
      b.PushAssignment(ExecutedAt, TimeValue(u.executedAt.value));
    }
    if u.undoStartedAt.Some? {
      b.PushAssignment(UndoStartedAt, TimeValue(u.undoStartedAt.value));
    }
    if u.undoneAt.Some? {
      b.PushAssignment(UndoneAt, TimeValue(u.undoneAt.value));
    }
  }

  method PushDocuments(b: UpdateBuilder, u: UpdateInput)
    requires b.Valid()
    modifies b
    ensures b.Valid()
    ensures b.update == old(b.update).(
      undoneBy := Replace(u.undoneBy, old(b.update).undoneBy),
      result := Replace(u.result, old(b.update).result),
      undoResult := Replace(u.undoResult, old(b.update).undoResult),
      error := Replace(u.error, old(b.update).error),
      metadata := Replace(u.metadata, old(b.update).metadata))
  {
    hide Means;
    if u.undoneBy.Some? {
      b.PushAssignment(UndoneBy, ActorJson(u.undoneBy.value));
    }
    if u.result.Some? {
      b.PushAssignment(ResultColumn, JsonText(u.result.value));
    }
    if u.undoResult.Some? {
      b.PushAssignment(UndoResultColumn, JsonText(u.undoResult.value));
    }
    if u.error.Some? {
      b.PushAssignment(ErrorColumn, ErrorJson(u.error.value));
    }
    if u.metadata.Some? {
      b.PushAssignment(MetadataColumn, MetadataJson(u.metadata.value));
    }
  }

  /**
   The statement built for a partial update, or nothing when no field is given. Its first value
   is the run's id, each placeholder refers to its own value, and evaluating it on any row and
   reading back is the in-memory field-wise merge.
   */
  method CreateActionRunUpdateQuery(id: Text, u: UpdateInput)
    returns (q: Option<(seq<Assignment>, seq<Value>)>)
    ensures q.None? <==> u == NO_UPDATE
    ensures q.Some? ==>
      && |q.value.1| == |q.value.0| + 1 && q.value.1[0] == IdValue(id)
      && (forall i :: 0 <= i < |q.value.0| ==>
            q.value.0[i].param == i + 2 && Fits(q.value.0[i].column, q.value.1[i + 1]))
      && (forall row :: Means(row, q.value.0, q.value.1, u))
  {
    hide Means;
    var b := new UpdateBuilder(id);
    PushStatusAndTimes(b, u);
    PushDocuments(b, u);
    assert b.update == u;
    if |b.assignments| == 0 {
      return None;
    }
    q := Some((b.assignments, b.values));
  }

  /** `SELECT ... WHERE id = $1`. */
  function FindRow(rows: seq<Row>, id: Text): (r: Option<nat>)
    ensures r.None? <==> forall i :: 0 <= i < |rows| ==> rows[i].id != id
    ensures r.Some? ==> r.value < |rows| && rows[r.value].id == id
  {
    if rows == [] then None
    else if rows[0].id == id then Some(0)
    else
      match FindRow(rows[1..], id)
      case None => None
      case Some(i) => assert forall j :: 0 < j < |rows| ==> rows[j] == rows[1..][j - 1]; Some(i + 1)
  }

  /** `UPDATE ... SET ... WHERE id = $1`: the assignments evaluated on each row whose id is the first value. */
  function UpdateRows(rows: seq<Row>, assignments: seq<Assignment>, values: seq<Value>): (r: seq<Row>)
    ensures |r| == |rows|
    ensures forall i :: 0 <= i < |r| ==> r[i] == UpdateRow(rows[i], assignments, values)
  {
    seq(|rows|, i requires 0 <= i < |rows| => UpdateRow(rows[i], assignments, values))
  }

  function UpdateRow(row: Row, assignments: seq<Assignment>, values: seq<Value>): Row {
    if |values| > 0 && values[0] == IdValue(row.id) then Evaluate(row, assignments, values) else row
  }

  /**
   The adapter's update, empty updates included: an unknown id is refused and nothing changes;
   otherwise the run becomes, and the answer is, the in-memory merge, and no other row changes.
   */
  method UpdateActionRun(rows: seq<Row>, id: Text, u: UpdateInput)
    returns (rows': seq<Row>, r: Result<ActionRun, ErrorCode>)
    requires PrimaryKey(rows)
    ensures (forall i :: 0 <= i < |rows| ==> rows[i].id != id) ==> rows' == rows && r == Err(ACTION_NOT_FOUND)
    ensures |rows'| == |rows|
    ensures forall i :: 0 <= i < |rows| && rows[i].id == id ==>
      && r == Ok(Merge(RunOf(rows[i]), u)) && RunOf(rows'[i]) == r.value
      && ColumnsAgree(rows'[i]) == ColumnsAgree(rows[i])
    ensures forall i :: 0 <= i < |rows| && rows[i].id != id ==> rows'[i] == rows[i]
  {
    hide UpdateRow, Means, RunOf, ColumnsAgree, Merge;
    var q := CreateActionRunUpdateQuery(id, u);
    var found := FindRow(rows, id);
    if found.Some? {
      OnlyRow(rows, found.value);
    }
    if q.None? {
      rows' := rows;
      if found.None? {
        return rows, Err(ACTION_NOT_FOUND);
      }
      MergeNothing(RunOf(rows[found.value]));
      return rows, Ok(RunOf(rows[found.value]));
    }
    var (assignments, values) := q.value;
    rows' := UpdateRows(rows, assignments, values);
    OtherRowsStay(rows, assignments, values, id);
    if found.None? {
      r := Err(ACTION_NOT_FOUND);
      assert rows' == rows;
    } else {
      RowUpdated(rows[found.value], assignments, values, u);
      r := Ok(RunOf(rows'[found.value]));
    }
  }

  lemma OnlyRow(rows: seq<Row>, k: nat)
    requires PrimaryKey(rows) && k < |rows|
    ensures forall i :: 0 <= i < |rows| && i != k ==> rows[i].id != rows[k].id
  {
    forall i | 0 <= i < |rows| && i != k ensures rows[i].id != rows[k].id {
      assert i < k || k < i;
    }
  }

  lemma MergeNothing(run: ActionRun)
    ensures Merge(run, NO_UPDATE) == run
  {
  }

  lemma OtherRowsStay(rows: seq<Row>, assignments: seq<Assignment>, values: seq<Value>, id: Text)
    requires |values| > 0 && values[0] == IdValue(id)
    ensures forall i :: 0 <= i < |rows| && rows[i].id != id ==> UpdateRows(rows, assignments, values)[i] == rows[i]
  {
    hide Evaluate;
  }

  lemma RowUpdated(row: Row, assignments: seq<Assignment>, values: seq<Value>, u: UpdateInput)
    requires |values| > 0 && values[0] == IdValue(row.id) && Means(row, assignments, values, u)
    ensures RunOf(UpdateRow(row, assignments, values)) == Merge(RunOf(row), u)
    ensures ColumnsAgree(UpdateRow(row, assignments, values)) == ColumnsAgree(row)
  {
    hide Evaluate, RunOf, ColumnsAgree, Merge;
  }
}
