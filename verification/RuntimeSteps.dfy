/** Every event of the runtime protocol keeps the invariant; one lemma per kind of step. */
module RuntimeSteps {
  import opened Prelude
  import opened JsonText
  import opened Lifecycle
  import opened StoreState
  import opened Idempotency
  import opened CanonicalJson
  import opened Runtime
  import opened RuntimeInvariant

  lemma InitInv(prefix: Text, clock: int)
    ensures Inv(Init(prefix, clock))
  {
    hide StoreState.Valid;
    EmptyValid(prefix);
  }

  // ---------------------------------------------------------------- facts drawn from the invariant

  /** What the invariant says about the call that takes a step. */
  lemma Mine(s: State, c: CallId)
    requires Inv(s) && c in s.calls
    ensures CallOk(s, c) && ResolvedOk(s, c) && DirtyOk(s)
    ensures InTransaction(s.calls[c]) <==> Holds(s, c)
    ensures Owned(s.calls[c]).Some? ==>
      forall d | d in s.calls && d != c :: Owned(s.calls[d]) != Owned(s.calls[c])
  {
  }

  /** What the invariant says about a committed run. */
  lemma Committed(s: State, id: Text)
    requires Inv(s) && id in Base(s).runs
    ensures id in s.history && RunOk(Base(s).runs[id], s.history[id], s.clock)
    ensures s.history.Keys == Base(s).runs.Keys
    ensures Base(s).runs[id].id == id
  {
  }

  /** No committed run was created, or started to be undone, after the present time. */
  lemma TimesSoFar(s: State, id: Text)
    requires Inv(s) && id in Base(s).runs
    ensures Base(s).runs[id].createdAt <= s.clock
    ensures Base(s).runs[id].status == UndoRunning ==>
      Base(s).runs[id].undoStartedAt.Some? && Base(s).runs[id].undoStartedAt.value <= s.clock
  {
    hide Inv, StoreState.Valid;
    Committed(s, id);
  }

  lemma Facts(s: State)
    requires Inv(s)
    ensures s.history.Keys == Base(s).runs.Keys
    ensures StoreState.Valid(Base(s)) && StoreState.Valid(s.store)
    ensures DirtyOk(s)
    ensures forall d | d in s.calls :: InTransaction(s.calls[d]) ==> Holds(s, d)
  {
  }

  // ---------------------------------------------------------------- steps that write nothing

  /** The step only moves one call's program counter. */
  lemma MoveKeepsInv(s: State, s': State, c: CallId)
    requires Inv(s)
    requires s' == s.(calls := s'.calls, clock := s'.clock) && s.clock <= s'.clock
    requires c in s'.calls && s'.calls == s.calls[c := s'.calls[c]]
    requires CallOk(s', c) && ResolvedOk(s', c)
    requires Owned(s'.calls[c]).None? || (c in s.calls && Owned(s'.calls[c]) == Owned(s.calls[c]))
    requires InTransaction(s'.calls[c]) ==> Holds(s', c)
    requires Holds(s, c) ==>
      c in s.calls && InTransaction(s'.calls[c]) && Owned(s'.calls[c]) == Owned(s.calls[c]) &&
      (s'.calls[c].UndoCall? ==> s.calls[c].UndoCall?)
    ensures Inv(s')
  {
    hide StoreState.Valid, Inv;
    Facts(s);
    StepKeepsInv(s, s', Some(c), None);
  }

  lemma BeginKeepsInv(s: State, c: CallId, call: Call)
    requires Inv(s) && c !in s.calls
    requires (call.ExecCall? && call.execPc.Requested?) || (call.UndoCall? && call.undoPc.Asked?)
    ensures Inv(s.(calls := s.calls[c := call]))
  {
    hide StoreState.Valid, Inv;
    Facts(s);
    MoveKeepsInv(s, s.(calls := s.calls[c := call]), c);
  }

  lemma UndoReadKeepsInv(s: State, s': State, c: CallId, refusal: Option<ErrorCode>)
    requires Inv(s) && DoUndoRead(s, c, refusal) == Some(s')
    ensures Inv(s')
  {
    hide StoreState.Valid, Inv;
    Facts(s);
    MoveKeepsInv(s, s', c);
  }

  lemma UndoRecordKeepsInv(s: State, s': State, c: CallId, conflict: ConflictBody)
    requires Inv(s) && DoUndoRecord(s, c, conflict) == Some(s')
    ensures Inv(s')
  {
    hide StoreState.Valid, Inv;
    Facts(s);
    Mine(s, c);
    MoveKeepsInv(s, s', c);
  }

  // ---------------------------------------------------------------- writes outside a transaction

  lemma NobodyInside(s: State, c: CallId)
    requires Inv(s) && (s.holder.None? || Holds(s, c))
    ensures forall d | d in s.calls && d != c :: !InTransaction(s.calls[d])
    ensures s.holder.None? ==> forall d | d in s.calls :: !InTransaction(s.calls[d])
  {
    hide StoreState.Valid;
  }

  /** A run that nobody else owns, because it is new or has a status no owner's run has. */
  lemma OwnedStatus(s: State, d: CallId)
    requires Inv(s) && d in s.calls && Owned(s.calls[d]).Some?
    ensures Owned(s.calls[d]).value in Base(s).runs
    ensures Base(s).runs[Owned(s.calls[d]).value].status in {Created, UndoRunning}
  {
    hide StoreState.Valid, Inv, ResolvedOk, DirtyOk, Unblocked;
    Mine(s, d);
  }

  /** A call outside any transaction updates one committed run. */
  lemma FreeUpdateKeepsInv(s: State, s': State, c: CallId, id: Text, u: UpdateInput)
    requires Inv(s) && s.holder.None? && s'.holder.None? && s.clock <= s'.clock
    requires id in s.store.runs && UpdateRun(s.store, id, u).Ok?
    requires s'.store == UpdateRun(s.store, id, u).value.0
    requires c in s'.calls && s'.calls == s.calls[c := s'.calls[c]]
    requires id in s'.history && s'.history == s.history[id := s'.history[id]]
    requires s.store.runs[id].status in {Created, Completed, UndoRunning}
    requires RunOk(s'.store.runs[id], s'.history[id], s'.clock)
    requires forall d | d in s.calls && d != c :: Owned(s.calls[d]) != Some(id)
    requires CallOk(s', c) && ResolvedOk(s', c) && !InTransaction(s'.calls[c])
    requires Owned(s'.calls[c]).None? || Owned(s'.calls[c]) == Some(id)
    ensures Inv(s')
  {
    hide StoreState.Valid, Inv;
    Facts(s);
    NobodyInside(s, c);
    UpdateRunKeepsValid(s.store, id, u);
    StepKeepsInv(s, s', Some(c), Some(id));
  }

  lemma ExecFailKeepsInv(s: State, s': State, c: CallId)
    requires Inv(s) && DoExecFail(s, c) == Some(s')
    ensures Inv(s')
  {
    hide StoreState.Valid, Inv;
    Facts(s);
    Mine(s, c);
    var pc := s.calls[c].execPc;
    var id := pc.run.id;
    Committed(s, id);
    assert s'.history == s.history[id := s'.history[id]];
    FreeUpdateKeepsInv(s, s', c, id, FailedUpdate(pc.error, pc.at));
  }

  lemma UndoClaimKeepsInv(s: State, s': State, c: CallId, t0: int, t1: int)
    requires Inv(s) && DoUndoClaim(s, c, t0, t1) == Some(s')
    ensures Inv(s')
  {
    hide StoreState.Valid, Inv, RunOk, AssertCanBeUndone;
    Facts(s);
    Mine(s, c);
    if s'.calls[c].undoPc.UndoThrew? {
      MoveKeepsInv(s, s', c);
    } else {
      var id := s.calls[c].undo.runId;
      UndoClaimRunOk(s, id, t0, t1);
      NotOwnedYet(s, id);
      FreeUpdateKeepsInv(s, s', c, id, UndoRunningUpdate(t1));
    }
  }

  /** A completed run has no owner. */
  lemma NotOwnedYet(s: State, id: Text)
    requires Inv(s) && id in Base(s).runs && Base(s).runs[id].status == Completed
    ensures forall d | d in s.calls :: Owned(s.calls[d]) != Some(id)
  {
    hide StoreState.Valid, Inv, RunOk;
    forall d | d in s.calls ensures Owned(s.calls[d]) != Some(id) {
      if Owned(s.calls[d]) == Some(id) {
        OwnedStatus(s, d);
      }
    }
  }

  lemma UndoClaimRunOk(s: State, id: Text, t0: int, t1: int)
    requires Inv(s) && s.holder.None? && id in s.store.runs && s.clock <= t0 <= t1
    requires AssertCanBeUndone(s.store.runs[id], t0).None?
    ensures s.store.runs[id].status == Completed
    ensures id in s.history
    ensures var h := s.history[id];
      RunOk(Merge(s.store.runs[id], UndoRunningUpdate(t1)),
            h.(undoClaims := h.undoClaims + 1, checkedAt := t0), t1)
    ensures s.history[id].undoStarts == 0 && s.store.runs[id].id == id
  {
    hide StoreState.Valid, Inv;
    Committed(s, id);
  }

  lemma UndoFailKeepsInv(s: State, s': State, c: CallId)
    requires Inv(s) && DoUndoFail(s, c) == Some(s')
    ensures Inv(s')
  {
    hide StoreState.Valid, Inv;
    Facts(s);
    Mine(s, c);
    var pc := s.calls[c].undoPc;
    var id := pc.run.id;
    Committed(s, id);
    assert s'.history == s.history[id := s'.history[id]];
    FreeUpdateKeepsInv(s, s', c, id, UndoFailedUpdate(pc.error));
  }

  lemma ExecClaimKeepsInv(s: State, s': State, c: CallId, t0: int, t1: int, style: Style)
    requires Inv(s) && DoExecClaim(s, c, t0, t1, style) == Some(s')
    ensures Inv(s')
  {
    hide StoreState.Valid, Inv, MatchRequest, DirtyOk, KeyFits, NewRun, FindScope, CreateRun, UndoExpiration;
    Facts(s);
    var req := s.calls[c].exec;
    var input := req.create.(
      undoExpiresAt := UndoExpiration(req.create.reversibility, req.undoWindowMs, t0));
    assert InputScope(input) == InputScope(req.create);
    if s'.calls[c].execPc.Claimed? {
      if input.idempotencyKey.Some? {
        FindScopeDecides(s.store, InputScope(input));
      }
      NewOwnerKeepsInv(s, s', c, input, t1);
    } else if s'.calls[c].execPc.Rejected? {
      MoveKeepsInv(s, s', c);
    } else {
      FindScopeDecides(s.store, InputScope(input));
      MoveKeepsInv(s, s', c);
    }
  }

  /** The call created a run nobody has seen before. */
  lemma NewOwnerKeepsInv(s: State, s': State, c: CallId, input: CreateInput, t1: int)
    requires Inv(s) && s.holder.None? && s.clock <= t1
    requires IsExec(s, c) && s.calls[c].execPc.Requested?
    requires InputScope(input) == InputScope(s.calls[c].exec.create)
    requires CreateRun(s.store, input, t1).Ok?
    requires var (store, run) := CreateRun(s.store, input, t1).value;
      s' == SetExec(Owning(s.(clock := t1), store, run, input), c, Claimed(run))
    requires input.idempotencyKey.Some? ==>
      forall id | id in s.store.runs :: RunScope(s.store.runs[id]) != InputScope(input)
    ensures Inv(s')
  {
    hide StoreState.Valid, Inv, CallOk, ResolvedOk, RunOk, SameIdentity, RunScope;
    Facts(s);
    NobodyInside(s, c);
    var run := CreateRun(s.store, input, t1).value.1;
    CreateRunKeepsValid(s.store, input, t1);
    NobodyOwns(s, run.id);
    NewOwnerOk(s, s', c, input, t1);
    StepKeepsInv(s, s', Some(c), Some(run.id));
  }

  lemma NobodyOwns(s: State, id: Text)
    requires Inv(s) && id !in Base(s).runs
    ensures forall d | d in s.calls :: Owned(s.calls[d]) != Some(id)
  {
    hide StoreState.Valid, Inv, Owned;
    forall d | d in s.calls ensures Owned(s.calls[d]) != Some(id) {
      if Owned(s.calls[d]) == Some(id) {
        OwnedStatus(s, d);
      }
    }
  }

  /** A new run starts its life, and belongs to the scope it was claimed for. */
  lemma NewOwnerOk(s: State, s': State, c: CallId, input: CreateInput, t1: int)
    requires IsExec(s, c) && s.holder.None? && CreateRun(s.store, input, t1).Ok?
    requires InputScope(input) == InputScope(s.calls[c].exec.create)
    requires var (store, run) := CreateRun(s.store, input, t1).value;
      s' == SetExec(Owning(s.(clock := t1), store, run, input), c, Claimed(run))
    ensures var run := CreateRun(s.store, input, t1).value.1;
      && RunScope(run) == InputScope(input)
      && run.id in s'.store.runs && s'.store.runs[run.id] == run
      && RunOk(run, s'.history[run.id], t1)
    ensures CallOk(s', c) && ResolvedOk(s', c)
  {
    hide StoreState.Valid;
  }

  // ---------------------------------------------------------------- opening a transaction

  lemma ExecOpenKeepsInv(s: State, s': State, c: CallId)
    requires Inv(s) && DoExecOpen(s, c) == Some(s')
    ensures Inv(s')
  {
    hide StoreState.Valid, Inv, CallOk, ResolvedOk, RunOk;
    Facts(s);
    NobodyInside(s, c);
    ExecMarkedOk(s, s', c);
    var id := s.calls[c].execPc.run.id;
    UpdateRunKeepsValid(s.store, id, MARK_RUNNING);
    assert Base(s') == Base(s);
    StepKeepsInv(s, s', Some(c), None);
  }

  lemma ExecMarkedOk(s: State, s': State, c: CallId)
    requires Inv(s) && DoExecOpen(s, c) == Some(s')
    ensures CallOk(s', c) && ResolvedOk(s', c) && s'.calls[c].execPc.run.id == s.calls[c].execPc.run.id
  {
    hide StoreState.Valid, Inv, DirtyOk, RunOk;
    Mine(s, c);
    Committed(s, s.calls[c].execPc.run.id);
  }

  lemma UndoOpenKeepsInv(s: State, s': State, c: CallId)
    requires Inv(s) && DoUndoOpen(s, c) == Some(s')
    ensures Inv(s')
  {
    hide StoreState.Valid, Inv;
    Facts(s);
    Mine(s, c);
    NobodyInside(s, c);
    assert Base(s') == Base(s);
    StepKeepsInv(s, s', Some(c), None);
  }

  // ---------------------------------------------------------------- inside a transaction

  /** A step inside the open transaction leaves everything committed alone. */
  lemma InsideKeepsInv(s: State, s': State, c: CallId)
    requires Inv(s) && Holds(s, c) && c in s.calls
    requires s' == s.(store := s'.store, clock := s'.clock, calls := s'.calls) && s.clock <= s'.clock
    requires c in s'.calls && s'.calls == s.calls[c := s'.calls[c]]
    requires CallOk(s', c) && ResolvedOk(s', c) && DirtyOk(s')
    requires Owned(s'.calls[c]) == Owned(s.calls[c])
    ensures Inv(s')
  {
    hide StoreState.Valid, Inv, CallOk, ResolvedOk, DirtyOk, Owned, InTransaction;
    Facts(s);
    NobodyInside(s, c);
    assert Base(s') == Base(s);
    StepKeepsInv(s, s', Some(c), None);
  }

  lemma ResolvedKept(s: State, s': State, c: CallId)
    requires c in s.calls && c in s'.calls && ResolvedOk(s, c) && Base(s') == Base(s)
    requires Resolved(s'.calls[c]) == Resolved(s.calls[c])
    requires s.calls[c].ExecCall? ==> s'.calls[c].ExecCall? && s'.calls[c].exec == s.calls[c].exec
    ensures ResolvedOk(s', c)
  {
    hide Base, RunScope, InputScope;
  }

  /** Updating the transaction's own run keeps every other run as it was captured. */
  lemma OwnUpdateDirtyOk(s: State, s': State, c: CallId, id: Text, u: UpdateInput)
    requires DirtyOk(s) && Holds(s, c) && c in s.calls && Owned(s.calls[c]) == Some(id)
    requires id in s.store.runs && s'.store == UpdateRun(s.store, id, u).value.0
    requires s'.holder == s.holder && c in s'.calls && Owned(s'.calls[c]) == Some(id)
    requires InTransaction(s'.calls[c]) && s'.calls[c].UndoCall? == s.calls[c].UndoCall?
    ensures DirtyOk(s')
  {
    hide StoreState.Valid, Owned, InTransaction, Merge;
    assert StoreState.Valid(s.store);
    UpdateRunKeepsValid(s.store, id, u);
  }

  /** Starting a handler changes only the history of the transaction's own run. */
  lemma StartKeepsInv(s: State, s': State, c: CallId, id: Text)
    requires Inv(s) && Holds(s, c) && c in s.calls && Owned(s.calls[c]) == Some(id)
    requires s' == s.(calls := s'.calls, history := s'.history)
    requires c in s'.calls && s'.calls == s.calls[c := s'.calls[c]]
    requires id in Base(s).runs && id in s'.history && s'.history == s.history[id := s'.history[id]]
    requires Base(s).runs[id].status != UndoFailed
    requires RunOk(Base(s).runs[id], s'.history[id], s.clock)
    requires CallOk(s', c) && ResolvedOk(s', c) && DirtyOk(s')
    requires Owned(s'.calls[c]) == Some(id)
    ensures Inv(s')
  {
    hide StoreState.Valid, Inv, CallOk, ResolvedOk, DirtyOk, Owned, InTransaction, RunOk;
    Facts(s);
    Mine(s, c);
    NobodyInside(s, c);
    assert Base(s') == Base(s);
    StepKeepsInv(s, s', Some(c), Some(id));
  }

  lemma ExecStartKeepsInv(s: State, s': State, c: CallId)
    requires Inv(s) && DoExecStart(s, c) == Some(s')
    ensures Inv(s')
  {
    hide StoreState.Valid, Inv, RunOk, DirtyOk, CallOk, ResolvedOk;
    Mine(s, c);
    ExecHandlingOk(s, s', c);
    StartKeepsInv(s, s', c, s.calls[c].execPc.run.id);
  }

  lemma ExecHandlingOk(s: State, s': State, c: CallId)
    requires Inv(s) && DoExecStart(s, c) == Some(s')
    ensures CallOk(s', c) && DirtyOk(s') && ResolvedOk(s', c)
    ensures var id := s.calls[c].execPc.run.id;
      && id in Base(s).runs && Base(s).runs[id].status == Created
      && Owned(s.calls[c]) == Some(id)
      && RunOk(Base(s).runs[id], s'.history[id], s.clock)
  {
    hide StoreState.Valid, Inv;
    Mine(s, c);
    Committed(s, s.calls[c].execPc.run.id);
  }

  lemma ExecSnapshotKeepsInv(s: State, s': State, c: CallId, body: SnapshotBody, t: int)
    requires Inv(s) && DoExecSnapshot(s, c, body, t) == Some(s')
    ensures Inv(s')
  {
    hide StoreState.Valid, Inv;
    Mine(s, c);
    SnapshotDirtyOk(s, s', c, body, t);
    InsideKeepsInv(s, s', c);
  }

  lemma SnapshotDirtyOk(s: State, s': State, c: CallId, body: SnapshotBody, t: int)
    requires DirtyOk(s) && DoExecSnapshot(s, c, body, t) == Some(s')
    requires Owned(s.calls[c]) == Some(s.calls[c].execPc.run.id)
    ensures DirtyOk(s')
  {
    hide StoreState.Valid, Owned, InTransaction;
    assert StoreState.Valid(s.store);
    SaveSnapshotKeepsValid(s.store, s.calls[c].execPc.run.id, body, t);
  }

  lemma ExecEffectKeepsInv(s: State, s': State, c: CallId, body: EffectBody, t: int)
    requires Inv(s) && DoExecEffect(s, c, body, t) == Some(s')
    ensures Inv(s')
  {
    hide StoreState.Valid, Inv;
    Mine(s, c);
    EffectDirtyOk(s, s', c, body, t);
    InsideKeepsInv(s, s', c);
  }

  lemma EffectDirtyOk(s: State, s': State, c: CallId, body: EffectBody, t: int)
    requires DirtyOk(s) && DoExecEffect(s, c, body, t) == Some(s')
    requires Owned(s.calls[c]) == Some(s.calls[c].execPc.run.id)
    ensures DirtyOk(s')
  {
    hide StoreState.Valid, Owned, InTransaction;
    assert StoreState.Valid(s.store);
    RecordEffectKeepsValid(s.store, s.calls[c].execPc.run.id, body, t);
  }

  lemma ExecReturnKeepsInv(s: State, s': State, c: CallId, data: Option<Json>,
                           md: Option<Metadata>, t: int)
    requires Inv(s) && DoExecReturn(s, c, data, md, t) == Some(s')
    ensures Inv(s')
  {
    hide StoreState.Valid, Inv;
    Mine(s, c);
    var run := s.calls[c].execPc.run;
    ExecReturnOk(s, s', c, data, md, t);
    OwnUpdateDirtyOk(s, s', c, run.id, CompletedUpdate(run, data, md, t));
    InsideKeepsInv(s, s', c);
  }

  lemma ExecReturnOk(s: State, s': State, c: CallId, data: Option<Json>, md: Option<Metadata>, t: int)
    requires Inv(s) && DoExecReturn(s, c, data, md, t) == Some(s')
    ensures CallOk(s', c) && ResolvedOk(s', c)
  {
    hide StoreState.Valid, Inv, DirtyOk, ResolvedOk, RunOk;
    Mine(s, c);
    TimesSoFar(s, s.calls[c].execPc.run.id);
    ResolvedKept(s, s', c);
  }

  lemma UndoGuardKeepsInv(s: State, s': State, c: CallId)
    requires Inv(s) && DoUndoGuard(s, c) == Some(s')
    ensures Inv(s')
  {
    hide StoreState.Valid, Inv;
    Facts(s);
    Mine(s, c);
    var run := s.calls[c].undoPc.run;
    GuardReadsEverything(s.store, run);
    if GuardError(s.store, run).Some? {
      UndoAbortKeepsInv(s, s', c);
    } else {
      MoveKeepsInv(s, s', c);
    }
  }

  /** The guard's scoped queries hide none of the run's records. */
  lemma GuardReadsEverything(store: Store, run: ActionRun)
    requires run.id in store.runs && store.runs[run.id] == run
    ensures ReadChildren(store, store.conflicts, RecordQueryOf(run))
         == Ok(ChildrenOf(store.conflicts, run.id))
    ensures ReadChildren(store, store.effects, RecordQueryOf(run))
         == Ok(ChildrenOf(store.effects, run.id))
    ensures GuardError(store, run).None? <==> Unblocked(store, run.id)
  {
    var effects := ChildrenOf(store.effects, run.id);
    if HasBlocking(effects) {
      var i :| 0 <= i < |effects| && Blocking(effects[i]);
      assert effects[i] in effects;
    } else {
      forall e | e in effects ensures !Blocking(e) {
        var i :| 0 <= i < |effects| && effects[i] == e;
      }
    }
  }

  lemma UndoStartKeepsInv(s: State, s': State, c: CallId)
    requires Inv(s) && DoUndoStart(s, c) == Some(s')
    ensures Inv(s')
  {
    hide StoreState.Valid, Inv, RunOk, DirtyOk, CallOk, ResolvedOk;
    Mine(s, c);
    if s.calls[c].undoPc.records != [] {
      UndoAbortKeepsInv(s, s', c);
    } else {
      UndoHandlingOk(s, s', c);
      StartKeepsInv(s, s', c, s.calls[c].undoPc.run.id);
    }
  }

  lemma UndoHandlingOk(s: State, s': State, c: CallId)
    requires Inv(s) && DoUndoStart(s, c) == Some(s') && s.calls[c].undoPc.records == []
    ensures CallOk(s', c) && DirtyOk(s') && ResolvedOk(s', c)
    ensures var id := s.calls[c].undoPc.run.id;
      && id in Base(s).runs && Base(s).runs[id].status == UndoRunning
      && Owned(s.calls[c]) == Some(id)
      && RunOk(Base(s).runs[id], s'.history[id], s.clock)
  {
    hide StoreState.Valid, Inv, Unblocked, RunOk, DirtyOk, ResolvedOk, SameIdentity;
    Mine(s, c);
    var id := s.calls[c].undoPc.run.id;
    Committed(s, id);
    AnotherStart(Base(s).runs[id], s.history[id], s.clock);
    ResolvedKept(s, s', c);
    StillDirtyOk(s, s', c);
  }

  lemma AnotherStart(run: ActionRun, h: History, clock: int)
    requires RunOk(run, h, clock) && run.status == UndoRunning && h.undoStarts == 0
    ensures RunOk(run, h.(undoStarts := 1), clock)
  {
    hide SameIdentity;
  }

  /** Moving the holder's call inside its transaction changes nothing the captured state is compared with. */
  lemma StillDirtyOk(s: State, s': State, c: CallId)
    requires DirtyOk(s) && Holds(s, c) && s' == s.(calls := s'.calls, history := s'.history)
    requires c in s'.calls && InTransaction(s'.calls[c]) && c in s.calls && Owned(s'.calls[c]) == Owned(s.calls[c])
    requires s'.calls[c].UndoCall? == s.calls[c].UndoCall?
    ensures DirtyOk(s')
  {
    hide StoreState.Valid, ChildrenOf;
  }

  lemma UndoReturnKeepsInv(s: State, s': State, c: CallId, data: Option<Json>,
                           md: Option<Metadata>, t: int)
    requires Inv(s) && DoUndoReturn(s, c, data, md, t) == Some(s')
    ensures Inv(s')
  {
    hide StoreState.Valid, Inv;
    Mine(s, c);
    var run := s.calls[c].undoPc.run;
    UndoReturnOk(s, s', c, data, md, t);
    OwnUpdateDirtyOk(s, s', c, run.id, UndoneUpdate(run, s.calls[c].undo.actor, data, md, t));
    InsideKeepsInv(s, s', c);
  }

  lemma UndoReturnOk(s: State, s': State, c: CallId, data: Option<Json>, md: Option<Metadata>, t: int)
    requires Inv(s) && DoUndoReturn(s, c, data, md, t) == Some(s')
    ensures CallOk(s', c) && ResolvedOk(s', c)
  {
    hide StoreState.Valid, Inv, DirtyOk, ResolvedOk, RunOk, Unblocked;
    Mine(s, c);
    TimesSoFar(s, s.calls[c].undoPc.run.id);
    ResolvedKept(s, s', c);
  }

  // ---------------------------------------------------------------- closing a transaction

  lemma ExecThrowKeepsInv(s: State, s': State, c: CallId, thrown: Option<ErrorCode>, t: int)
    requires Inv(s) && DoExecThrow(s, c, thrown, t) == Some(s')
    ensures Inv(s')
  {
    hide StoreState.Valid, Inv, CallOk, ResolvedOk, RunOk;
    Facts(s);
    Mine(s, c);
    NobodyInside(s, c);
    assert Base(s') == Base(s);
    ExecFailingOk(s, s', c, thrown, t);
    StepKeepsInv(s, s', Some(c), None);
  }

  lemma ExecFailingOk(s: State, s': State, c: CallId, thrown: Option<ErrorCode>, t: int)
    requires Inv(s) && DoExecThrow(s, c, thrown, t) == Some(s')
    ensures CallOk(s', c) && ResolvedOk(s', c)
  {
    hide StoreState.Valid, Inv, DirtyOk;
    Mine(s, c);
    Committed(s, s.calls[c].execPc.run.id);
  }

  /** Leaving the undo transaction by an exception restores the captured state. */
  lemma UndoAbortKeepsInv(s: State, s': State, c: CallId)
    requires Inv(s) && IsUndo(s, c) && Holds(s, c)
    requires var pc := s.calls[c].undoPc; pc.UndoOpened? || pc.Guarded? || pc.Undoing?
    requires IsUndo(s', c) && s'.calls[c].undoPc.UndoFailing?
    requires s' == SetUndo(Abort(s), c, s'.calls[c].undoPc)
    requires s'.calls[c].undoPc.run == s.calls[c].undoPc.run
    ensures Inv(s')
  {
    hide StoreState.Valid, Inv;
    Facts(s);
    Mine(s, c);
    NobodyInside(s, c);
    assert Base(s') == Base(s);
    StepKeepsInv(s, s', Some(c), None);
  }

  lemma UndoThrowKeepsInv(s: State, s': State, c: CallId, thrown: Option<ErrorCode>)
    requires Inv(s) && DoUndoThrow(s, c, thrown) == Some(s')
    ensures Inv(s')
  {
    hide StoreState.Valid, Inv;
    Facts(s);
    UndoAbortKeepsInv(s, s', c);
  }

  /** What a transaction's own run looks like when it commits, everything else being as captured. */
  lemma CommitTouches(s: State, s': State, c: CallId, id: Text)
    requires Inv(s) && Holds(s, c) && Owned(s.calls[c]) == Some(id)
    requires s'.holder.None? && s'.store == s.store && s'.clock == s.clock
    requires id in s.history && id in s'.history
    requires s'.history == s.history[id := s'.history[id]]
    ensures Touches(s, s', Some(id))
  {
    hide StoreState.Valid, Inv;
    Facts(s);
    assert s.store.runs.Keys == Base(s).runs.Keys;
  }

  lemma CommitKeepsInv(s: State, s': State, c: CallId, id: Text)
    requires Inv(s) && Holds(s, c) && c in s.calls && Owned(s.calls[c]) == Some(id)
    requires s' == s.(calls := s'.calls, history := s'.history, holder := None)
    requires c in s'.calls && s'.calls == s.calls[c := s'.calls[c]]
    requires id in s.history && id in s'.history && s'.history == s.history[id := s'.history[id]]
    requires id in Base(s).runs && id in s.store.runs && Base(s).runs[id].status != UndoFailed
    requires SameIdentity(s.store.runs[id], Base(s).runs[id])
    requires RunOk(s.store.runs[id], s'.history[id], s.clock)
    requires CallOk(s', c) && ResolvedOk(s', c)
    requires Owned(s'.calls[c]).None? && !InTransaction(s'.calls[c])
    ensures Inv(s')
  {
    hide StoreState.Valid, Inv, CallOk, ResolvedOk, Owned, InTransaction, RunOk, SameIdentity, Touches;
    Facts(s);
    Mine(s, c);
    NobodyInside(s, c);
    CommitTouches(s, s', c, id);
    StepKeepsInv(s, s', Some(c), Some(id));
  }

  lemma ExecCommitKeepsInv(s: State, s': State, c: CallId)
    requires Inv(s) && DoExecCommit(s, c) == Some(s')
    ensures Inv(s')
  {
    hide StoreState.Valid, Inv, RunOk, CallOk, ResolvedOk, DirtyOk;
    Mine(s, c);
    ExecutedOk(s, s', c);
    CommitKeepsInv(s, s', c, s.calls[c].execPc.run.id);
  }

  lemma ExecutedOk(s: State, s': State, c: CallId)
    requires Inv(s) && DoExecCommit(s, c) == Some(s')
    ensures CallOk(s', c) && ResolvedOk(s', c)
    ensures var id := s.calls[c].execPc.run.id;
      && id in Base(s).runs && id in s.store.runs && Base(s).runs[id].status == Created
      && SameIdentity(s.store.runs[id], Base(s).runs[id])
      && RunOk(s.store.runs[id], s'.history[id], s.clock)
  {
    hide StoreState.Valid, Inv, DirtyOk;
    Mine(s, c);
    Committed(s, s.calls[c].execPc.run.id);
  }

  lemma UndoCommitKeepsInv(s: State, s': State, c: CallId)
    requires Inv(s) && DoUndoCommit(s, c) == Some(s')
    ensures Inv(s')
  {
    hide StoreState.Valid, Inv, RunOk, CallOk, ResolvedOk, DirtyOk;
    Mine(s, c);
    UndoneOk(s, s', c);
    CommitKeepsInv(s, s', c, s.calls[c].undoPc.run.id);
  }

  lemma UndoneOk(s: State, s': State, c: CallId)
    requires Inv(s) && DoUndoCommit(s, c) == Some(s')
    ensures CallOk(s', c) && ResolvedOk(s', c)
    ensures var id := s.calls[c].undoPc.run.id;
      && id in Base(s).runs && id in s.store.runs && Base(s).runs[id].status == UndoRunning
      && SameIdentity(s.store.runs[id], Base(s).runs[id])
      && RunOk(s.store.runs[id], s'.history[id], s.clock)
  {
    hide StoreState.Valid, Inv, DirtyOk;
    Mine(s, c);
    Committed(s, s.calls[c].undoPc.run.id);
  }

  // ---------------------------------------------------------------- child records

  /** Recording a child outside any transaction changes no run. */
  lemma RecordKeepsInv(s: State, s': State, c: Option<CallId>)
    requires Inv(s) && s.holder.None? && s'.holder.None? && s.clock <= s'.clock
    requires StoreState.Valid(s'.store) && s'.store.runs == s.store.runs
    requires s'.history == s.history
    requires if c.None? then s'.calls == s.calls else
      && c.value in s'.calls && s'.calls == s.calls[c.value := s'.calls[c.value]]
      && CallOk(s', c.value) && ResolvedOk(s', c.value)
      && Owned(s'.calls[c.value]).None? && !InTransaction(s'.calls[c.value])
    ensures Inv(s')
  {
    hide StoreState.Valid, Inv;
    Facts(s);
    NobodyInside(s, 0);
    StepKeepsInv(s, s', c, None);
  }

  lemma UndoFlushKeepsInv(s: State, s': State, c: CallId, t: int)
    requires Inv(s) && DoUndoFlush(s, c, t) == Some(s')
    ensures Inv(s')
  {
    hide StoreState.Valid, Inv;
    Facts(s);
    Mine(s, c);
    var pc := s.calls[c].undoPc;
    if pc.records == [] {
      MoveKeepsInv(s, s', c);
    } else {
      RecordConflictKeepsValid(s.store, pc.runId, pc.records[0], t);
      RecordKeepsInv(s, s', Some(c));
    }
  }

  lemma OutsideConflictKeepsInv(s: State, s': State, runId: Text, body: ConflictBody, t: int)
    requires Inv(s) && DoOutsideConflict(s, runId, body, t) == Some(s')
    ensures Inv(s')
  {
    hide StoreState.Valid, Inv;
    Facts(s);
    RecordConflictKeepsValid(s.store, runId, body, t);
    RecordKeepsInv(s, s', None);
  }

  lemma OutsideEffectKeepsInv(s: State, s': State, runId: Text, body: EffectBody, t: int)
    requires Inv(s) && DoOutsideEffect(s, runId, body, t) == Some(s')
    ensures Inv(s')
  {
    hide StoreState.Valid, Inv;
    Facts(s);
    RecordEffectKeepsValid(s.store, runId, body, t);
    RecordKeepsInv(s, s', None);
  }

  // ---------------------------------------------------------------- all events

  lemma ApplyKeepsInv(s: State, e: Event, style: Style)
    requires Inv(s) && Apply(s, e, style).Some?
    ensures Inv(Apply(s, e, style).value)
  {
    hide StoreState.Valid, Inv;
    var s' := Apply(s, e, style).value;
    match e
    case BeginExec(c, req) => BeginKeepsInv(s, c, ExecCall(req, Requested));
    case ExecClaim(c, t0, t1) => ExecClaimKeepsInv(s, s', c, t0, t1, style);
    case ExecOpen(c) => ExecOpenKeepsInv(s, s', c);
    case ExecStart(c) => ExecStartKeepsInv(s, s', c);
    case ExecSnapshot(c, body, t) => ExecSnapshotKeepsInv(s, s', c, body, t);
    case ExecEffect(c, body, t) => ExecEffectKeepsInv(s, s', c, body, t);
    case ExecThrow(c, thrown, t) => ExecThrowKeepsInv(s, s', c, thrown, t);
    case ExecReturn(c, data, md, t) => ExecReturnKeepsInv(s, s', c, data, md, t);
    case ExecCommit(c) => ExecCommitKeepsInv(s, s', c);
    case ExecFail(c) => ExecFailKeepsInv(s, s', c);
    case BeginUndo(c, req) => BeginKeepsInv(s, c, UndoCall(req, Asked));
    case UndoRead(c, refusal) => UndoReadKeepsInv(s, s', c, refusal);
    case UndoClaim(c, t0, t1) => UndoClaimKeepsInv(s, s', c, t0, t1);
    case UndoOpen(c) => UndoOpenKeepsInv(s, s', c);
    case UndoGuard(c) => UndoGuardKeepsInv(s, s', c);
    case UndoRecord(c, conflict) => UndoRecordKeepsInv(s, s', c, conflict);
    case UndoStart(c) => UndoStartKeepsInv(s, s', c);
    case UndoThrow(c, thrown) => UndoThrowKeepsInv(s, s', c, thrown);
    case UndoReturn(c, data, md, t) => UndoReturnKeepsInv(s, s', c, data, md, t);
    case UndoCommit(c) => UndoCommitKeepsInv(s, s', c);
    case UndoFail(c) => UndoFailKeepsInv(s, s', c);
    case UndoFlush(c, t) => UndoFlushKeepsInv(s, s', c, t);
    case OutsideConflict(runId, body, t) => OutsideConflictKeepsInv(s, s', runId, body, t);
    case OutsideEffect(runId, body, t) => OutsideEffectKeepsInv(s, s', runId, body, t);
  }

  /** Every reachable state satisfies the invariant. */
  lemma {:induction false} RunKeepsInv(s: State, events: seq<Event>, style: Style)
    requires Inv(s) && Run(s, events, style).Some?
    ensures Inv(Run(s, events, style).value)
    decreases |events|
  {
    hide StoreState.Valid, Inv;
    if events != [] {
      ApplyKeepsInv(s, events[0], style);
      RunKeepsInv(Apply(s, events[0], style).value, events[1..], style);
    }
  }
}
