/** The records of an action run and its children, and the inputs that create and update them. */
module Lifecycle {
  import opened Prelude
  import opened JsonText

  datatype Status =
    | Created | Running | Completed | Failed | UndoRunning | Undone | UndoFailed | Expired

  datatype ErrorCode =
    | ACTION_NOT_FOUND
    | ACTION_ALREADY_REGISTERED
    | ACTION_INPUT_INVALID
    | ACTION_PERMISSION_DENIED
    | ACTION_EXECUTION_FAILED
    | ACTION_UNDO_FAILED
    | ACTION_NOT_UNDOABLE
    | ACTION_ALREADY_UNDONE
    | ACTION_UNDO_EXPIRED
    | ACTION_CONFLICT
    | IDEMPOTENCY_CONFLICT
    | SNAPSHOT_NOT_FOUND
    | STORAGE_ERROR

  /** A JSON object used as a bag of properties; spreading one over another is map addition. */
  type Metadata = map<Text, Json>

  datatype Actor = Actor(id: Text, kind: Text, metadata: Option<Metadata>)
  datatype Target = Target(id: Text, kind: Text, metadata: Option<Metadata>)

  datatype ReversibilityKind = Full | Partial | Compensating | Irreversible
  datatype Reversibility = Reversibility(kind: ReversibilityKind, undoable: bool)

  /** Times are milliseconds since the epoch. */
  datatype ActionRun = ActionRun(
    id: Text,
    name: Text,
    status: Status,
    actor: Actor,
    tenantId: Option<Text>,
    target: Option<Target>,
    input: Json,
    inputHash: Option<Text>,
    idempotencyKey: Option<Text>,
    reversibility: Reversibility,
    createdAt: int,
    executedAt: Option<int>,
    undoExpiresAt: Option<int>,
    undoStartedAt: Option<int>,
    undoneAt: Option<int>,
    undoneBy: Option<Actor>,
    result: Option<Json>,
    undoResult: Option<Json>,
    error: Option<ErrorCode>,
    metadata: Option<Metadata>)

  datatype CreateInput = CreateInput(
    name: Text,
    actor: Actor,
    tenantId: Option<Text>,
    target: Option<Target>,
    input: Json,
    inputHash: Option<Text>,
    idempotencyKey: Option<Text>,
    reversibility: Reversibility,
    undoExpiresAt: Option<int>,
    metadata: Option<Metadata>)

  datatype UpdateInput = UpdateInput(
    status: Option<Status>,
    executedAt: Option<int>,
    undoStartedAt: Option<int>,
    undoneAt: Option<int>,
    undoneBy: Option<Actor>,
    result: Option<Json>,
    undoResult: Option<Json>,
    error: Option<ErrorCode>,
    metadata: Option<Metadata>)

  const NO_UPDATE := UpdateInput(None, None, None, None, None, None, None, None, None)

  /** A record that belongs to a run: a snapshot, a side effect or a conflict. */
  datatype Child<+T> = Child(id: Text, actionRunId: Text, createdAt: int, body: T)

  datatype SnapshotBody = SnapshotBody(key: Text, value: Json, metadata: Option<Metadata>)
  datatype EffectStatus = Planned | EffectCompleted | EffectFailed | Compensated
  datatype EffectBody = EffectBody(
    kind: Text, status: EffectStatus, reversibility: Reversibility,
    payload: Option<Json>, metadata: Option<Metadata>)
  datatype ConflictBody = ConflictBody(reason: Text, details: Option<Metadata>)

  datatype RecordQuery = RecordQuery(
    actionRunId: Text, tenantId: Option<Text>, actorId: Option<Text>, actorType: Option<Text>)

  /** `next` when given, otherwise what was there: one conditional spread. */
  function Replace<T>(next: Option<T>, existing: Option<T>): Option<T> {
    if next.Some? then next else existing
  }

  /** The stored run a creation produces. */
  function NewRun(input: CreateInput, id: Text, now: int): ActionRun {
    ActionRun(
      id, input.name, Created, input.actor, input.tenantId, input.target, input.input,
      input.inputHash, input.idempotencyKey, input.reversibility, now,
      None, input.undoExpiresAt, None, None, None, None, None, None, input.metadata)
  }

  /** The run is new and made for this input: every field given is kept and nothing has happened to it. */
  predicate MadeFor(run: ActionRun, input: CreateInput, now: int) {
    && run.name == input.name && run.actor == input.actor && run.tenantId == input.tenantId
    && run.target == input.target && run.input == input.input && run.inputHash == input.inputHash
    && run.idempotencyKey == input.idempotencyKey && run.reversibility == input.reversibility
    && run.undoExpiresAt == input.undoExpiresAt && run.metadata == input.metadata
    && run.createdAt == now && run.status == Created
    && run.executedAt.None? && run.undoStartedAt.None? && run.undoneAt.None? && run.undoneBy.None?
    && run.result.None? && run.undoResult.None? && run.error.None?
  }

  /** Each given field has the given value, each other field the value it had. */
  predicate UpdatedBy(before: ActionRun, u: UpdateInput, after: ActionRun) {
    && SameIdentity(after, before)
    && after.status == (if u.status.Some? then u.status.value else before.status)
    && after.executedAt == (if u.executedAt.Some? then u.executedAt else before.executedAt)
    && after.undoStartedAt == (if u.undoStartedAt.Some? then u.undoStartedAt else before.undoStartedAt)
    && after.undoneAt == (if u.undoneAt.Some? then u.undoneAt else before.undoneAt)
    && after.undoneBy == (if u.undoneBy.Some? then u.undoneBy else before.undoneBy)
    && after.result == (if u.result.Some? then u.result else before.result)
    && after.undoResult == (if u.undoResult.Some? then u.undoResult else before.undoResult)
    && after.error == (if u.error.Some? then u.error else before.error)
    && after.metadata == (if u.metadata.Some? then u.metadata else before.metadata)
  }

  /** Field-wise merge of a partial update. */
  function Merge(run: ActionRun, u: UpdateInput): ActionRun {
    run.(
      status := if u.status.Some? then u.status.value else run.status,
      executedAt := Replace(u.executedAt, run.executedAt),
      undoStartedAt := Replace(u.undoStartedAt, run.undoStartedAt),
      undoneAt := Replace(u.undoneAt, run.undoneAt),
      undoneBy := Replace(u.undoneBy, run.undoneBy),
      result := Replace(u.result, run.result),
      undoResult := Replace(u.undoResult, run.undoResult),
      error := Replace(u.error, run.error),
      metadata := Replace(u.metadata, run.metadata))
  }

  /** Everything about a run that no update can change. */
  predicate SameIdentity(a: ActionRun, b: ActionRun) {
    && a.id == b.id && a.name == b.name && a.actor == b.actor && a.tenantId == b.tenantId
    && a.target == b.target && a.input == b.input && a.inputHash == b.inputHash
    && a.idempotencyKey == b.idempotencyKey && a.reversibility == b.reversibility
    && a.createdAt == b.createdAt && a.undoExpiresAt == b.undoExpiresAt
  }

  function MergeMetadata(existing: Option<Metadata>, next: Option<Metadata>): Option<Metadata> {
    if existing.None? then next
    else if next.None? then existing
    else Some(existing.value + next.value)
  }

  const MAX_IDEMPOTENCY_KEY_BYTES := 255

  /** UTF-8 length; a lone surrogate is written as the three-byte replacement character. */
  function Utf8Length(t: Text): nat {
    if t == [] then 0
    else if |t| >= 2 && IsHigh(t[0]) && IsLow(t[1]) then 4 + Utf8Length(t[2..])
    else (if t[0] < 0x80 then 1 else if t[0] < 0x800 then 2 else 3) + Utf8Length(t[1..])
  }

  predicate KeyFits(key: Text) {
    Utf8Length(key) <= MAX_IDEMPOTENCY_KEY_BYTES
  }

  lemma {:induction false} Utf8Bounds(t: Text)
    ensures |t| <= Utf8Length(t) <= 3 * |t|
    decreases |t|
  {
    if t != [] {
      Utf8Bounds(t[1..]);
      if |t| >= 2 {
        Utf8Bounds(t[2..]);
      }
    }
  }

  /** Up to 85 code units always fit, more than 255 never do; ASCII fits exactly up to 255. */
  lemma {:induction false} KeyLengths(key: Text)
    ensures |key| <= 85 ==> KeyFits(key)
    ensures |key| > 255 ==> !KeyFits(key)
    ensures (forall u | u in key :: u < 0x80) ==> (KeyFits(key) <==> |key| <= 255)
  {
    Utf8Bounds(key);
    if forall u | u in key :: u < 0x80 {
      AsciiLength(key);
    }
  }

  lemma {:induction false} AsciiLength(t: Text)
    requires forall u | u in t :: u < 0x80
    ensures Utf8Length(t) == |t|
    decreases |t|
  {
    if t != [] {
      assert t[0] in t;
      forall u | u in t[1..] ensures u in t {
      }
      AsciiLength(t[1..]);
    }
  }

  /** The tuple within which an idempotency key is unique. */
  datatype Scope = Scope(
    name: Text, actorId: Text, actorType: Text, tenantId: Option<Text>, key: Option<Text>)

  function RunScope(run: ActionRun): Scope {
    Scope(run.name, run.actor.id, run.actor.kind, run.tenantId, run.idempotencyKey)
  }

  function InputScope(input: CreateInput): Scope {
    Scope(input.name, input.actor.id, input.actor.kind, input.tenantId, input.idempotencyKey)
  }
}
