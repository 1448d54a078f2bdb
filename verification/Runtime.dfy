/**
 `execute` and `undo` as multi-step programs over the shared store. Any number of calls run at
 once; between two steps of one call any other call may take steps. Writes need the store's
 transaction lock, reads do not. Handlers choose freely what to record, what to return and
 whether to throw.
 */
module Runtime {
  import opened Prelude
  import opened JsonText
  import opened Lifecycle
  import opened StoreState
  import opened Idempotency
  import opened CanonicalJson

  type CallId = nat

  /** A validated, authorized execute request; `create.undoExpiresAt` is filled in when claiming. */
  datatype ExecRequest = ExecRequest(create: CreateInput, undoWindowMs: Option<int>)

  datatype UndoRequest = UndoRequest(runId: Text, actor: Actor, tenantId: Option<Text>)

  /** Where an `execute` call is. */
  datatype ExecPc =
    | Requested
    | Claimed(run: ActionRun)
    | Marked(run: ActionRun)
    | Handling(run: ActionRun)
    | Wrote(run: ActionRun, data: Option<Json>, metadata: Option<Metadata>, at: int)
    | Failing(run: ActionRun, error: ErrorCode, at: int)
    | Executed(run: ActionRun)
    | ExecThrew(runId: Text, error: ErrorCode)
    | Replayed(run: ActionRun)
    | Mismatched(runId: Text, error: ErrorCode)
    | Rejected(error: ErrorCode)

  /** Where an `undo` call is; `records` are the conflicts recorded but not yet stored. */
  datatype UndoPc =
    | Asked
    | Checked(run: ActionRun)
    | UndoClaimed(run: ActionRun)
    | UndoOpened(run: ActionRun)
    | Guarded(run: ActionRun, records: seq<ConflictBody>)
    | Undoing(run: ActionRun, records: seq<ConflictBody>)
    | UndoWrote(run: ActionRun, data: Option<Json>, metadata: Option<Metadata>, at: int)
    | UndoFailing(run: ActionRun, error: ErrorCode, records: seq<ConflictBody>)
    | Flushing(runId: Text, error: ErrorCode, records: seq<ConflictBody>)
    | UndoReturned(run: ActionRun)
    | UndoThrew(error: ErrorCode)

  datatype Call =
    | ExecCall(exec: ExecRequest, execPc: ExecPc)
    | UndoCall(undo: UndoRequest, undoPc: UndoPc)

  /** The open transaction: whose it is and the state to restore if it aborts. */
  datatype Holder = Holder(call: CallId, saved: Store)

  /** What has happened to a run so far; used only to state properties. */
  datatype History = History(
    input: CreateInput,
    execStarts: nat,
    execCommits: nat,
    execMetadata: Option<Metadata>,
    undoClaims: nat,
    checkedAt: int,
    undoStarts: nat,
    undoCommits: nat,
    undoMetadata: Option<Metadata>)

  datatype State = State(
    store: Store,
    clock: int,
    holder: Option<Holder>,
    calls: map<CallId, Call>,
    history: map<Text, History>)

  datatype Event =
    | BeginExec(call: CallId, exec: ExecRequest)
    | ExecClaim(call: CallId, t0: int, t1: int)
    | ExecOpen(call: CallId)
    | ExecStart(call: CallId)
    | ExecSnapshot(call: CallId, snapshot: SnapshotBody, t0: int)
    | ExecEffect(call: CallId, effect: EffectBody, t0: int)
    | ExecThrow(call: CallId, thrown: Option<ErrorCode>, t0: int)
    | ExecReturn(call: CallId, data: Option<Json>, metadata: Option<Metadata>, t0: int)
    | ExecCommit(call: CallId)
    | ExecFail(call: CallId)
    | BeginUndo(call: CallId, undo: UndoRequest)
    | UndoRead(call: CallId, refusal: Option<ErrorCode>)
    | UndoClaim(call: CallId, t0: int, t1: int)
    | UndoOpen(call: CallId)
    | UndoGuard(call: CallId)
    | UndoRecord(call: CallId, conflict: ConflictBody)
    | UndoStart(call: CallId)
    | UndoThrow(call: CallId, thrown: Option<ErrorCode>)
    | UndoReturn(call: CallId, data: Option<Json>, metadata: Option<Metadata>, t0: int)
    | UndoCommit(call: CallId)
    | UndoFail(call: CallId)
    | UndoFlush(call: CallId, t0: int)
    | OutsideConflict(runId: Text, conflict: ConflictBody, t0: int)
    | OutsideEffect(runId: Text, effect: EffectBody, t0: int)

  function Init(prefix: Text, clock: int): State {
    State(Empty(prefix), clock, None, map[], map[])
  }

  /** The committed state: what every call outside the open transaction would restore to. */
  function Base(s: State): Store {
    if s.holder.Some? then s.holder.value.saved else s.store
  }

  // ---------------------------------------------------------------- guards

  function UndoExpiration(reversibility: Reversibility, window: Option<int>, now: int): Option<int> {
    if !reversibility.undoable || window.None? then None else Some(now + window.value)
  }

  function AssertCanBeUndone(run: ActionRun, now: int): Option<ErrorCode> {
    if run.status == Undone then Some(ACTION_ALREADY_UNDONE)
    else if run.status != Completed then Some(ACTION_NOT_UNDOABLE)
    else if !run.reversibility.undoable then Some(ACTION_NOT_UNDOABLE)
    else if run.undoExpiresAt.Some? && run.undoExpiresAt.value <= now then Some(ACTION_UNDO_EXPIRED)
    else None
  }

  predicate UndoTenantMatches(run: ActionRun, tenantId: Option<Text>) {
    (run.tenantId.None? && tenantId.None?) || (run.tenantId.Some? && run.tenantId == tenantId)
  }

  function RecordQueryOf(run: ActionRun): RecordQuery {
    RecordQuery(run.id, run.tenantId, Some(run.actor.id), Some(run.actor.kind))
  }

  /** What stops an undo before its handlers run: stored conflicts, then irreversible effects. */
  function GuardError(store: Store, run: ActionRun): Option<ErrorCode> {
    match ReadChildren(store, store.conflicts, RecordQueryOf(run))
    case Err(e) => Some(e)
    case Ok(conflicts) =>
      if conflicts != [] then Some(ACTION_CONFLICT)
      else
        match ReadChildren(store, store.effects, RecordQueryOf(run))
        case Err(e) => Some(e)
        case Ok(effects) => if HasBlocking(effects) then Some(ACTION_CONFLICT) else None
  }

  predicate Blocking(effect: Child<EffectBody>) {
    effect.body.status == EffectCompleted && !effect.body.reversibility.undoable
  }

  predicate HasBlocking(effects: seq<Child<EffectBody>>) {
    exists i | 0 <= i < |effects| :: Blocking(effects[i])
  }

  function Normalize(thrown: Option<ErrorCode>, default: ErrorCode): ErrorCode {
    if thrown.Some? then thrown.value else default
  }

  // ---------------------------------------------------------------- updates written

  const MARK_RUNNING := NO_UPDATE.(status := Some(Running))

  function CompletedUpdate(run: ActionRun, data: Option<Json>, md: Option<Metadata>, now: int)
    : UpdateInput
  {
    NO_UPDATE.(status := Some(Completed), executedAt := Some(now), result := data,
               metadata := MergeMetadata(run.metadata, md))
  }

  function FailedUpdate(error: ErrorCode, now: int): UpdateInput {
    NO_UPDATE.(status := Some(Failed), executedAt := Some(now), error := Some(error))
  }

  function UndoRunningUpdate(now: int): UpdateInput {
    NO_UPDATE.(status := Some(UndoRunning), undoStartedAt := Some(now))
  }

  function UndoneUpdate(run: ActionRun, actor: Actor, data: Option<Json>, md: Option<Metadata>, now: int)
    : UpdateInput
  {
    NO_UPDATE.(status := Some(Undone), undoneAt := Some(now), undoneBy := Some(actor),
               undoResult := data, metadata := MergeMetadata(run.metadata, md))
  }

  function UndoFailedUpdate(error: ErrorCode): UpdateInput {
    NO_UPDATE.(status := Some(UndoFailed), error := Some(error))
  }

  // ---------------------------------------------------------------- steps

  function SetExec(s: State, c: CallId, pc: ExecPc): State
    requires c in s.calls && s.calls[c].ExecCall?
  {
    s.(calls := s.calls[c := s.calls[c].(execPc := pc)])
  }

  function SetUndo(s: State, c: CallId, pc: UndoPc): State
    requires c in s.calls && s.calls[c].UndoCall?
  {
    s.(calls := s.calls[c := s.calls[c].(undoPc := pc)])
  }

  predicate IsExec(s: State, c: CallId) {
    c in s.calls && s.calls[c].ExecCall?
  }

  predicate IsUndo(s: State, c: CallId) {
    c in s.calls && s.calls[c].UndoCall?
  }

  /** The call has the transaction open. */
  predicate Holds(s: State, c: CallId) {
    s.holder.Some? && s.holder.value.call == c
  }

  /** Undo every write of the open transaction and release the lock. */
  function Abort(s: State): State {
    if s.holder.None? then s else s.(store := s.holder.value.saved, holder := None)
  }

  /** The clock was read at `t0` for the expiry, before waiting for the lock; `t1` is read under it. */
  function DoExecClaim(s: State, c: CallId, t0: int, t1: int, style: Style): Option<State> {
    if !(IsExec(s, c) && s.calls[c].execPc.Requested? && s.holder.None? && t0 <= t1 && s.clock <= t1)
    then None
    else
      var req := s.calls[c].exec;
      var input := req.create.(
        undoExpiresAt := UndoExpiration(req.create.reversibility, req.undoWindowMs, t0));
      var ticked := s.(clock := t1);
      if input.idempotencyKey.None? then
        match CreateRun(s.store, input, t1)
        case Err(e) => Some(SetExec(ticked, c, Rejected(e)))
        case Ok((store, run)) => Some(SetExec(Owning(ticked, store, run, input), c, Claimed(run)))
      else
        match ClaimRun(s.store, input, t1)
        case Err(e) => Some(SetExec(ticked, c, Rejected(e)))
        case Ok((store, run, created)) =>
          if created then Some(SetExec(Owning(ticked, store, run, input), c, Claimed(run)))
          else
            match MatchRequest(run, input.input, input.target, style)
            case None => Some(SetExec(ticked, c, Replayed(run)))
            case Some(e) => Some(SetExec(ticked, c, Mismatched(run.id, e)))
  }

  function Owning(s: State, store: Store, run: ActionRun, input: CreateInput): State {
    s.(store := store,
       history := s.history[run.id := History(input, 0, 0, None, 0, 0, 0, 0, None)])
  }

  function DoExecOpen(s: State, c: CallId): Option<State> {
    if !(IsExec(s, c) && s.calls[c].execPc.Claimed? && s.holder.None?) then None
    else
      match UpdateRun(s.store, s.calls[c].execPc.run.id, MARK_RUNNING)
      case Err(_) => None
      case Ok((store, run)) =>
        Some(SetExec(s.(store := store, holder := Some(Holder(c, s.store))), c, Marked(run)))
  }

  function DoExecStart(s: State, c: CallId): Option<State> {
    if !(IsExec(s, c) && s.calls[c].execPc.Marked? && Holds(s, c)) then None
    else
      var run := s.calls[c].execPc.run;
      if run.id !in s.history then None
      else
        var h := s.history[run.id];
        Some(SetExec(s.(history := s.history[run.id := h.(execStarts := h.execStarts + 1)]),
                     c, Handling(run)))
  }

  function DoExecSnapshot(s: State, c: CallId, body: SnapshotBody, t: int): Option<State> {
    if !(IsExec(s, c) && s.calls[c].execPc.Handling? && Holds(s, c) && s.clock <= t) then None
    else
      match SaveSnapshot(s.store, s.calls[c].execPc.run.id, body, t)
      case Err(_) => None
      case Ok((store, _)) => Some(s.(store := store, clock := t))
  }

  function DoExecEffect(s: State, c: CallId, body: EffectBody, t: int): Option<State> {
    if !(IsExec(s, c) && s.calls[c].execPc.Handling? && Holds(s, c) && s.clock <= t) then None
    else
      match RecordEffect(s.store, s.calls[c].execPc.run.id, body, t)
      case Err(_) => None
      case Ok((store, _)) => Some(s.(store := store, clock := t))
  }

  /** After the abort the clock is read for the failure, before waiting for the lock again. */
  function DoExecThrow(s: State, c: CallId, thrown: Option<ErrorCode>, t: int): Option<State> {
    if !(IsExec(s, c) && s.calls[c].execPc.Handling? && Holds(s, c) && s.clock <= t) then None
    else
      var run := s.calls[c].execPc.run;
      Some(SetExec(Abort(s).(clock := t), c, Failing(run, Normalize(thrown, ACTION_EXECUTION_FAILED), t)))
  }

  function DoExecReturn(s: State, c: CallId, data: Option<Json>, md: Option<Metadata>, t: int)
    : Option<State>
  {
    if !(IsExec(s, c) && s.calls[c].execPc.Handling? && Holds(s, c) && s.clock <= t) then None
    else
      var running := s.calls[c].execPc.run;
      match UpdateRun(s.store, running.id, CompletedUpdate(running, data, md, t))
      case Err(_) => None
      case Ok((store, run)) =>
        Some(SetExec(s.(store := store, clock := t), c, Wrote(run, data, md, t)))
  }

  function DoExecCommit(s: State, c: CallId): Option<State> {
    if !(IsExec(s, c) && s.calls[c].execPc.Wrote? && Holds(s, c)) then None
    else
      var pc := s.calls[c].execPc;
      if pc.run.id !in s.history then None
      else
        var h := s.history[pc.run.id];
        var h' := h.(execCommits := h.execCommits + 1, execMetadata := pc.metadata);
        Some(SetExec(s.(holder := None, history := s.history[pc.run.id := h']), c, Executed(pc.run)))
  }

  function DoExecFail(s: State, c: CallId): Option<State> {
    if !(IsExec(s, c) && s.calls[c].execPc.Failing? && s.holder.None?) then None
    else
      var pc := s.calls[c].execPc;
      match UpdateRun(s.store, pc.run.id, FailedUpdate(pc.error, pc.at))
      case Err(_) => None
      case Ok((store, _)) =>
        Some(SetExec(s.(store := store), c, ExecThrew(pc.run.id, pc.error)))
  }

  /** The first read of `undo` takes no lock, so it may see uncommitted writes. */
  function DoUndoRead(s: State, c: CallId, refusal: Option<ErrorCode>): Option<State> {
    if !(IsUndo(s, c) && s.calls[c].undoPc.Asked?) then None
    else
      var req := s.calls[c].undo;
      if req.runId !in s.store.runs then Some(SetUndo(s, c, UndoThrew(ACTION_NOT_FOUND)))
      else if !UndoTenantMatches(s.store.runs[req.runId], req.tenantId) then
        Some(SetUndo(s, c, UndoThrew(ACTION_PERMISSION_DENIED)))
      else if refusal.Some? then Some(SetUndo(s, c, UndoThrew(refusal.value)))
      else Some(SetUndo(s, c, Checked(s.store.runs[req.runId])))
  }

  function DoUndoClaim(s: State, c: CallId, t0: int, t1: int): Option<State> {
    if !(IsUndo(s, c) && s.calls[c].undoPc.Checked? && s.holder.None? && s.clock <= t0 <= t1)
    then None
    else
      var id := s.calls[c].undo.runId;
      if id !in s.store.runs then Some(SetUndo(s.(clock := t1), c, UndoThrew(ACTION_NOT_FOUND)))
      else
        match AssertCanBeUndone(s.store.runs[id], t0)
        case Some(e) => Some(SetUndo(s.(clock := t1), c, UndoThrew(e)))
        case None =>
          if id !in s.history then None
          else
            match UpdateRun(s.store, id, UndoRunningUpdate(t1))
            case Err(_) => None
            case Ok((store, run)) =>
              var h := s.history[id].(undoClaims := s.history[id].undoClaims + 1, checkedAt := t0);
              Some(SetUndo(s.(store := store, clock := t1, history := s.history[id := h]),
                           c, UndoClaimed(run)))
  }

  function DoUndoOpen(s: State, c: CallId): Option<State> {
    if !(IsUndo(s, c) && s.calls[c].undoPc.UndoClaimed? && s.holder.None?) then None
    else Some(SetUndo(s.(holder := Some(Holder(c, s.store))), c, UndoOpened(s.calls[c].undoPc.run)))
  }

  function DoUndoGuard(s: State, c: CallId): Option<State> {
    if !(IsUndo(s, c) && s.calls[c].undoPc.UndoOpened? && Holds(s, c)) then None
    else
      var run := s.calls[c].undoPc.run;
      match GuardError(s.store, run)
      case Some(e) => Some(SetUndo(Abort(s), c, UndoFailing(run, e, [])))
      case None => Some(SetUndo(s, c, Guarded(run, [])))
  }

  /** `checkConflicts` and the undo handler record into a list kept outside the transaction. */
  function DoUndoRecord(s: State, c: CallId, conflict: ConflictBody): Option<State> {
    if !(IsUndo(s, c) && Holds(s, c)) then None
    else
      match s.calls[c].undoPc
      case Guarded(run, records) => Some(SetUndo(s, c, Guarded(run, records + [conflict])))
      case Undoing(run, records) => Some(SetUndo(s, c, Undoing(run, records + [conflict])))
      case _ => None
  }

  /** After `checkConflicts` returned: anything recorded blocks the handler. */
  function DoUndoStart(s: State, c: CallId): Option<State> {
    if !(IsUndo(s, c) && s.calls[c].undoPc.Guarded? && Holds(s, c)) then None
    else
      var run, records := s.calls[c].undoPc.run, s.calls[c].undoPc.records;
      if records != [] then
        Some(SetUndo(Abort(s), c, UndoFailing(run, ACTION_CONFLICT, records)))
      else if run.id !in s.history then None
      else
        var h := s.history[run.id];
        Some(SetUndo(s.(history := s.history[run.id := h.(undoStarts := h.undoStarts + 1)]),
                     c, Undoing(run, [])))
  }

  function DoUndoThrow(s: State, c: CallId, thrown: Option<ErrorCode>): Option<State> {
    if !(IsUndo(s, c) && Holds(s, c)) then None
    else
      var error := Normalize(thrown, ACTION_UNDO_FAILED);
      match s.calls[c].undoPc
      case Guarded(run, records) => Some(SetUndo(Abort(s), c, UndoFailing(run, error, records)))
      case Undoing(run, records) => Some(SetUndo(Abort(s), c, UndoFailing(run, error, records)))
      case _ => None
  }

  /** A handler that returns normally drops what it recorded. */
  function DoUndoReturn(s: State, c: CallId, data: Option<Json>, md: Option<Metadata>, t: int)
    : Option<State>
  {
    if !(IsUndo(s, c) && s.calls[c].undoPc.Undoing? && Holds(s, c) && s.clock <= t) then None
    else
      var running := s.calls[c].undoPc.run;
      match UpdateRun(s.store, running.id, UndoneUpdate(running, s.calls[c].undo.actor, data, md, t))
      case Err(_) => None
      case Ok((store, run)) =>
        Some(SetUndo(s.(store := store, clock := t), c, UndoWrote(run, data, md, t)))
  }

  function DoUndoCommit(s: State, c: CallId): Option<State> {
    if !(IsUndo(s, c) && s.calls[c].undoPc.UndoWrote? && Holds(s, c)) then None
    else
      var pc := s.calls[c].undoPc;
      if pc.run.id !in s.history then None
      else
        var h := s.history[pc.run.id];
        var h' := h.(undoCommits := h.undoCommits + 1, undoMetadata := pc.metadata);
        Some(SetUndo(s.(holder := None, history := s.history[pc.run.id := h']),
                     c, UndoReturned(pc.run)))
  }

  function DoUndoFail(s: State, c: CallId): Option<State> {
    if !(IsUndo(s, c) && s.calls[c].undoPc.UndoFailing? && s.holder.None?) then None
    else
      var pc := s.calls[c].undoPc;
      match UpdateRun(s.store, pc.run.id, UndoFailedUpdate(pc.error))
      case Err(_) => None
      case Ok((store, _)) =>
        Some(SetUndo(s.(store := store), c, Flushing(pc.run.id, pc.error, pc.records)))
  }

  /** Store one deferred conflict, or throw the error when none is left. */
  function DoUndoFlush(s: State, c: CallId, t: int): Option<State> {
    if !(IsUndo(s, c) && s.calls[c].undoPc.Flushing? && s.holder.None? && s.clock <= t) then None
    else
      var pc := s.calls[c].undoPc;
      if pc.records == [] then Some(SetUndo(s, c, UndoThrew(pc.error)))
      else
        match RecordConflict(s.store, pc.runId, pc.records[0], t)
        case Err(_) => None
        case Ok((store, _)) =>
          Some(SetUndo(s.(store := store, clock := t), c, Flushing(pc.runId, pc.error, pc.records[1..])))
  }

  function DoOutsideConflict(s: State, runId: Text, body: ConflictBody, t: int): Option<State> {
    if !(s.holder.None? && s.clock <= t) then None
    else
      match RecordConflict(s.store, runId, body, t)
      case Err(_) => None
      case Ok((store, _)) => Some(s.(store := store, clock := t))
  }

  function DoOutsideEffect(s: State, runId: Text, body: EffectBody, t: int): Option<State> {
    if !(s.holder.None? && s.clock <= t) then None
    else
      match RecordEffect(s.store, runId, body, t)
      case Err(_) => None
      case Ok((store, _)) => Some(s.(store := store, clock := t))
  }

  /** The effect of an event, or nothing when it is not enabled. */
  function Apply(s: State, e: Event, style: Style): Option<State> {
    match e
    case BeginExec(c, req) =>
      if c in s.calls then None else Some(s.(calls := s.calls[c := ExecCall(req, Requested)]))
    case ExecClaim(c, t0, t1) => DoExecClaim(s, c, t0, t1, style)
    case ExecOpen(c) => DoExecOpen(s, c)
    case ExecStart(c) => DoExecStart(s, c)
    case ExecSnapshot(c, body, t) => DoExecSnapshot(s, c, body, t)
    case ExecEffect(c, body, t) => DoExecEffect(s, c, body, t)
    case ExecThrow(c, thrown, t) => DoExecThrow(s, c, thrown, t)
    case ExecReturn(c, data, md, t) => DoExecReturn(s, c, data, md, t)
    case ExecCommit(c) => DoExecCommit(s, c)
    case ExecFail(c) => DoExecFail(s, c)
    case BeginUndo(c, req) =>
      if c in s.calls then None else Some(s.(calls := s.calls[c := UndoCall(req, Asked)]))
    case UndoRead(c, refusal) => DoUndoRead(s, c, refusal)
    case UndoClaim(c, t0, t1) => DoUndoClaim(s, c, t0, t1)
    case UndoOpen(c) => DoUndoOpen(s, c)
    case UndoGuard(c) => DoUndoGuard(s, c)
    case UndoRecord(c, conflict) => DoUndoRecord(s, c, conflict)
    case UndoStart(c) => DoUndoStart(s, c)
    case UndoThrow(c, thrown) => DoUndoThrow(s, c, thrown)
    case UndoReturn(c, data, md, t) => DoUndoReturn(s, c, data, md, t)
    case UndoCommit(c) => DoUndoCommit(s, c)
    case UndoFail(c) => DoUndoFail(s, c)
    case UndoFlush(c, t) => DoUndoFlush(s, c, t)
    case OutsideConflict(runId, body, t) => DoOutsideConflict(s, runId, body, t)
    case OutsideEffect(runId, body, t) => DoOutsideEffect(s, runId, body, t)
  }

  /** A whole schedule. */
  function Run(s: State, events: seq<Event>, style: Style): Option<State>
    decreases |events|
  {
    if events == [] then Some(s)
    else
      match Apply(s, events[0], style)
      case None => None
      case Some(next) => Run(next, events[1..], style)
  }
}
