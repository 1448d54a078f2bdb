/**
 Rows of the action-run table, what the driver hands back for them, and the mapping to records.
 An absent value of a column is SQL NULL; a JSON column may also hold the JSON null.
 */
module PostgresRows {
  import opened Prelude
  import opened JsonText
  import opened Lifecycle

  datatype Row = Row(
    id: Text,
    name: Text,
    status: Status,
    actorId: Text,
    actorType: Text,
    actor: Actor,
    tenantId: Option<Text>,
    targetType: Option<Text>,
    targetId: Option<Text>,
    target: Option<Target>,
    input: Json,
    inputHash: Option<Text>,
    idempotencyKey: Option<Text>,
    reversibility: Reversibility,
    createdAt: int,
    executedAt: Option<int>,
    undoExpiresAt: Option<int>,
    undoStartedAt: Option<int>,
    undoneAt: Option<int>,
    undoneBy: Option<Actor>,
    result: Option<Json>,
    undoResult: Option<Json>,
    error: Option<ErrorCode>,
    metadata: Option<Metadata>)

  /** The audit constraints: the identity columns agree with the JSON they were copied from. */
  predicate ColumnsAgree(row: Row) {
    && row.actorId == row.actor.id && row.actorType == row.actor.kind
    && match row.target
       case None => row.targetType.None? && row.targetId.None?
       case Some(t) => row.targetType == Some(t.kind) && row.targetId == Some(t.id)
  }

  /** Ids are unique. */
  ghost predicate PrimaryKey(rows: seq<Row>) {
    forall i, j :: 0 <= i < j < |rows| ==> rows[i].id != rows[j].id
  }

  /** A selected row: the driver turns SQL NULL and JSON null alike into null, so flags tell them apart. */
  datatype Selected = Selected(
    row: Row, result: Json, resultPresent: bool, undoResult: Json, undoResultPresent: bool)

  function NullableJson(column: Option<Json>): Json {
    if column.Some? then column.value else Json.Null
  }

  /** `SELECT ... result, result IS NOT NULL AS result_present, ...`. */
  function Select(row: Row): Selected {
    Selected(row.(result := None, undoResult := None),
             NullableJson(row.result), row.result.Some?,
             NullableJson(row.undoResult), row.undoResult.Some?)
  }

  function PresentJson(value: Json, present: bool): Option<Json> {
    if value == Json.Null && !present then None else Some(value)
  }

  /** `mapActionRunRow`. */
  function MapRow(s: Selected): ActionRun {
    var row := s.row;
    ActionRun(
      row.id, row.name, row.status, row.actor, row.tenantId, row.target, row.input, row.inputHash,
      row.idempotencyKey, row.reversibility, row.createdAt, row.executedAt, row.undoExpiresAt,
      row.undoStartedAt, row.undoneAt, row.undoneBy,
      PresentJson(s.result, s.resultPresent), PresentJson(s.undoResult, s.undoResultPresent),
      row.error, row.metadata)
  }

  /** The record a row stands for. */
  function RunOf(row: Row): ActionRun {
    MapRow(Select(row))
  }

  /** The row an insert of a new run writes. */
  function InsertedRow(input: CreateInput, id: Text, now: int): Row {
    Row(id, input.name, Created, input.actor.id, input.actor.kind, input.actor, input.tenantId,
        (if input.target.Some? then Some(input.target.value.kind) else None),
        (if input.target.Some? then Some(input.target.value.id) else None),
        input.target, input.input, input.inputHash, input.idempotencyKey, input.reversibility, now,
        None, input.undoExpiresAt, None, None, None, None, None, None, input.metadata)
  }

  /** Every column of the row has what the input gives for it, and the later columns are NULL. */
  predicate WrittenFor(row: Row, input: CreateInput, id: Text, now: int) {
    && row.id == id && row.name == input.name && row.status == Created && row.actor == input.actor
    && row.actorId == input.actor.id && row.actorType == input.actor.kind
    && row.tenantId == input.tenantId && row.target == input.target
    && (input.target.None? ==> row.targetId.None? && row.targetType.None?)
    && (input.target.Some? ==>
          row.targetId == Some(input.target.value.id) && row.targetType == Some(input.target.value.kind))
    && row.input == input.input && row.inputHash == input.inputHash && row.idempotencyKey == input.idempotencyKey
    && row.reversibility == input.reversibility && row.undoExpiresAt == input.undoExpiresAt
    && row.metadata == input.metadata && row.createdAt == now
    && row.executedAt.None? && row.undoStartedAt.None? && row.undoneAt.None? && row.undoneBy.None?
    && row.result.None? && row.undoResult.None? && row.error.None?
  }

  /** Every column survives the trip, and an absent result stays distinct from a null one. */
  lemma ReadingLosesNothing(row: Row)
    ensures RunOf(row).result == row.result && RunOf(row).undoResult == row.undoResult
    ensures var run := RunOf(row);
      && run.id == row.id && run.name == row.name && run.status == row.status && run.actor == row.actor
      && run.tenantId == row.tenantId && run.target == row.target && run.input == row.input
      && run.inputHash == row.inputHash && run.idempotencyKey == row.idempotencyKey
      && run.reversibility == row.reversibility && run.createdAt == row.createdAt
      && run.executedAt == row.executedAt && run.undoExpiresAt == row.undoExpiresAt
      && run.undoStartedAt == row.undoStartedAt && run.undoneAt == row.undoneAt && run.undoneBy == row.undoneBy
      && run.error == row.error && run.metadata == row.metadata
  {
  }

  /** Inserting and reading back gives the record made for the input, the one the in-memory store creates. */
  lemma InsertReadsBack(input: CreateInput, id: Text, now: int)
    ensures MadeFor(RunOf(InsertedRow(input, id, now)), input, now) && RunOf(InsertedRow(input, id, now)).id == id
    ensures RunOf(InsertedRow(input, id, now)) == NewRun(input, id, now)
    ensures ColumnsAgree(InsertedRow(input, id, now))
    ensures WrittenFor(InsertedRow(input, id, now), input, id, now)
  {
  }
}
