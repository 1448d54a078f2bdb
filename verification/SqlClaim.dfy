/** Claiming an idempotent run in the database: insert on conflict do nothing, then look up. */
module SqlClaim {
  import opened Prelude
  import opened JsonText
  import opened Lifecycle
  import opened PostgresRows

  /** The row falls under the partial unique index for tenants, or the one for no tenant. */
  predicate InTenantIndex(row: Row) {
    row.idempotencyKey.Some? && row.tenantId.Some?
  }

  predicate InGlobalIndex(row: Row) {
    row.idempotencyKey.Some? && row.tenantId.None?
  }

  predicate SameTenantKey(a: Row, b: Row) {
    && a.tenantId == b.tenantId && SameGlobalKey(a, b)
  }

  predicate SameGlobalKey(a: Row, b: Row) {
    && a.name == b.name && a.actorType == b.actorType && a.actorId == b.actorId
    && a.idempotencyKey == b.idempotencyKey
  }

  ghost predicate IndexesHold(rows: seq<Row>) {
    && (forall i, j :: 0 <= i < j < |rows| && InTenantIndex(rows[i]) && InTenantIndex(rows[j]) ==>
          !SameTenantKey(rows[i], rows[j]))
    && (forall i, j :: 0 <= i < j < |rows| && InGlobalIndex(rows[i]) && InGlobalIndex(rows[j]) ==>
          !SameGlobalKey(rows[i], rows[j]))
  }

  /** The arbiter index that the conflict clause names, chosen by whether the input has a tenant. */
  predicate ConflictsWith(existing: Row, row: Row, hasTenant: bool) {
    if hasTenant then InTenantIndex(existing) && InTenantIndex(row) && SameTenantKey(existing, row)
    else InGlobalIndex(existing) && InGlobalIndex(row) && SameGlobalKey(existing, row)
  }

  /** `INSERT ... ON CONFLICT ... DO NOTHING RETURNING`: the inserted row, or none. */
  function Insert(rows: seq<Row>, row: Row, hasTenant: bool): (seq<Row>, Option<Row>) {
    if exists existing | existing in rows :: ConflictsWith(existing, row, hasTenant) then (rows, None)
    else (rows + [row], Some(row))
  }

  /** `WHERE name = .. AND actor_type = .. AND actor_id = .. AND idempotency_key = .. AND tenant ..`. */
  predicate KeyMatches(row: Row, input: CreateInput) {
    && row.name == input.name && row.actorType == input.actor.kind && row.actorId == input.actor.id
    && row.idempotencyKey.Some? && row.idempotencyKey == input.idempotencyKey
    && (if input.tenantId.None? then row.tenantId.None?
        else row.tenantId.Some? && row.tenantId.value == input.tenantId.value)
  }

  function LookUp(rows: seq<Row>, input: CreateInput): (r: Option<Row>)
    ensures r.None? <==> forall row | row in rows :: !KeyMatches(row, input)
    ensures r.Some? ==> r.value in rows && KeyMatches(r.value, input)
  {
    if rows == [] then None
    else if KeyMatches(rows[0], input) then Some(rows[0])
    else LookUp(rows[1..], input)
  }

  /** What other sessions may do to the table: add and update rows, but never a row's scope. */
  ghost predicate LaterTable(rows: seq<Row>, later: seq<Row>) {
    && IndexesHold(later) && (forall row | row in later :: ColumnsAgree(row))
    && forall row | row in rows ::
         exists next | next in later :: next.id == row.id && RunScope(RunOf(next)) == RunScope(RunOf(row))
  }

  /**
   `claimActionRun` of the database adapter. Between its insert and its lookup other sessions may
   have turned the table into `later`.
   */
  method ClaimActionRun(rows: seq<Row>, later: seq<Row>, input: CreateInput, id: Text, now: int)
    returns (rows': seq<Row>, r: Result<(ActionRun, bool), ErrorCode>)
    requires input.idempotencyKey.Some?
    requires IndexesHold(rows) && (forall row | row in rows :: ColumnsAgree(row)) && LaterTable(rows, later)
    ensures IndexesHold(rows') && forall row | row in rows' :: ColumnsAgree(row)
    ensures r.Err? <==> !KeyFits(input.idempotencyKey.value)
    ensures r.Err? ==> rows' == rows && r.error == ACTION_INPUT_INVALID
    ensures r.Ok? && r.value.1 ==>
      && |rows'| == |rows| + 1 && rows'[..|rows|] == rows && WrittenFor(rows'[|rows|], input, id, now)
      && MadeFor(r.value.0, input, now) && r.value.0.id == id
      && forall row | row in rows :: RunScope(RunOf(row)) != InputScope(input)
    ensures r.Ok? && !r.value.1 ==>
      && rows' == later && RunScope(r.value.0) == InputScope(input)
      && (exists row | row in rows :: RunScope(RunOf(row)) == InputScope(input))
      && (exists row | row in later :: RunOf(row) == r.value.0)
      && (forall row | row in later && RunScope(RunOf(row)) == InputScope(input) :: RunOf(row) == r.value.0)
  {
    hide RunOf, RunScope, ColumnsAgree, IndexesHold, KeyMatches, ConflictsWith;
    rows' := rows;
    if !KeyFits(input.idempotencyKey.value) {
      return rows, Err(ACTION_INPUT_INVALID);
    }
    var candidate := InsertedRow(input, id, now);
    InsertReadsBack(input, id, now);
    forall row | row in rows || row in later
      ensures KeyMatches(row, input) <==> RunScope(RunOf(row)) == InputScope(input)
      ensures ConflictsWith(row, candidate, input.tenantId.Some?) <==> KeyMatches(row, input)
    {
      MatchingIsScope(row, input);
      ArbiterIsRight(row, input, id, now);
    }
    var (after, inserted) := Insert(rows, candidate, input.tenantId.Some?);
    if inserted.Some? {
      InsertKeepsIndexes(rows, input, id, now);
      return after, Ok((RunOf(inserted.value), true));
    }
    var existing := LookUp(later, input);
    if existing.None? {
      return rows, Err(STORAGE_ERROR);
    }
    OneRowPerScope(later, existing.value, input);
    rows', r := later, Ok((RunOf(existing.value), false));
  }

  /** The lookup's condition holds exactly for the rows of the input's scope. */
  lemma MatchingIsScope(row: Row, input: CreateInput)
    requires ColumnsAgree(row) && input.idempotencyKey.Some?
    ensures KeyMatches(row, input) <==> RunScope(RunOf(row)) == InputScope(input)
  {
  }

  /** The chosen index is the only one the new row falls under, so it decides the conflict. */
  lemma ArbiterIsRight(row: Row, input: CreateInput, id: Text, now: int)
    requires input.idempotencyKey.Some?
    ensures ConflictsWith(row, InsertedRow(input, id, now), input.tenantId.Some?) <==> KeyMatches(row, input)
    ensures InTenantIndex(InsertedRow(input, id, now)) <==> input.tenantId.Some?
    ensures InGlobalIndex(InsertedRow(input, id, now)) <==> input.tenantId.None?
  {
  }

  lemma InsertKeepsIndexes(rows: seq<Row>, input: CreateInput, id: Text, now: int)
    requires input.idempotencyKey.Some? && IndexesHold(rows)
    requires forall row | row in rows :: !KeyMatches(row, input)
    ensures IndexesHold(rows + [InsertedRow(input, id, now)])
  {
    var candidate := InsertedRow(input, id, now);
    forall i | 0 <= i < |rows|
      ensures !(InTenantIndex(rows[i]) && InTenantIndex(candidate) && SameTenantKey(rows[i], candidate))
      ensures !(InGlobalIndex(rows[i]) && InGlobalIndex(candidate) && SameGlobalKey(rows[i], candidate))
    {
      assert rows[i] in rows;
      ArbiterIsRight(rows[i], input, id, now);
    }
  }

  lemma OneRowPerScope(rows: seq<Row>, found: Row, input: CreateInput)
    requires IndexesHold(rows) && found in rows && KeyMatches(found, input)
    ensures forall row | row in rows && KeyMatches(row, input) :: row == found
  {
    forall row | row in rows && KeyMatches(row, input) ensures row == found {
      var i :| 0 <= i < |rows| && rows[i] == row;
      var j :| 0 <= j < |rows| && rows[j] == found;
      assert i == j || i < j || j < i;
    }
  }
}
