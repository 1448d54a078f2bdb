/** What a request gets: the run it asked for, within its tenant, its undo window and its failures. */
module RuntimeRequests {
  import opened Prelude
  import opened JsonText
  import opened Lifecycle
  import opened StoreState
  import opened Idempotency
  import opened CanonicalJson
  import opened Runtime
  import opened RuntimeInvariant
  import opened RuntimeSteps
  import opened RuntimeTheorems

  // ---------------------------------------------------------------- tenants

  /** The undo call has found its run and has not been refused. */
  predicate Admitted(pc: UndoPc) {
    !pc.Asked? && !pc.UndoThrew?
  }

  /** The run an admitted undo works on. */
  function WorksOn(pc: UndoPc): Text
    requires Admitted(pc)
  {
    if pc.Flushing? then pc.runId else pc.run.id
  }

  /** An admitted undo works on the run it was asked for, which belongs to the asking tenant. */
  ghost predicate ServesRequest(s: State, call: Call) {
    call.UndoCall? && Admitted(call.undoPc) ==>
      && WorksOn(call.undoPc) == call.undo.runId
      && call.undo.runId in Base(s).runs
      && UndoTenantMatches(Base(s).runs[call.undo.runId], call.undo.tenantId)
  }

  ghost predicate AllServed(s: State) {
    forall c | c in s.calls :: ServesRequest(s, s.calls[c])
  }

  /** Uncommitted writes never change a run's identity. */
  lemma DirtyIdentity(s: State, id: Text)
    requires Inv(s) && id in s.store.runs
    ensures id in Base(s).runs && SameIdentity(s.store.runs[id], Base(s).runs[id])
    ensures s.store.runs[id].id == id
  {
    hide Inv, StoreState.Valid, ResolvedOk;
    Facts(s);
    hide RunsValid, ChildrenValid;
    StoredUnderId(s.store, id);
    if s.holder.Some? {
      var c := s.holder.value.call;
      Mine(s, c);
      assert id in Base(s).runs.Keys;
      if Owned(s.calls[c]) == Some(id) {
        OwnIdentity(s, c, id);
      }
    }
  }

  lemma StoredUnderId(store: Store, id: Text)
    requires StoreState.Valid(store) && id in store.runs
    ensures store.runs[id].id == id
  {
  }

  lemma OwnIdentity(s: State, c: CallId, id: Text)
    requires Inv(s) && Holds(s, c) && c in s.calls && Owned(s.calls[c]) == Some(id)
    requires id in s.store.runs && id in Base(s).runs
    ensures SameIdentity(s.store.runs[id], Base(s).runs[id])
  {
    hide Inv, StoreState.Valid, ResolvedOk, DirtyOk, Unblocked;
    Mine(s, c);
  }

  /** Past its first read an undo call keeps its request and its run. */
  lemma RequestKept(s: State, s': State, e: Event, style: Style, c: CallId)
    requires Inv(s) && Apply(s, e, style) == Some(s') && !e.UndoRead?
    requires c in s'.calls && s'.calls[c].UndoCall? && Admitted(s'.calls[c].undoPc)
    ensures c in s.calls && s.calls[c].UndoCall? && Admitted(s.calls[c].undoPc)
    ensures s'.calls[c].undo == s.calls[c].undo
    ensures WorksOn(s.calls[c].undoPc) == s.calls[c].undo.runId ==>
      WorksOn(s'.calls[c].undoPc) == s.calls[c].undo.runId
  {
    hide Inv, StoreState.Valid;
    if e.BeginUndo? || e.UndoClaim? || e.UndoOpen? || e.UndoGuard? || e.UndoRecord? || e.UndoStart?
       || e.UndoThrow? || e.UndoReturn? || e.UndoCommit? || e.UndoFail? || e.UndoFlush? {
      if e.call == c {
        OwnRequestKept(s, s', e, style, c);
      } else {
        OthersKept(s, s', e, style, c);
      }
    } else {
      OthersKept(s, s', e, style, c);
    }
  }

  lemma OthersKept(s: State, s': State, e: Event, style: Style, c: CallId)
    requires Apply(s, e, style) == Some(s') && c in s'.calls && s'.calls[c].UndoCall?
    requires e.OutsideConflict? || e.OutsideEffect? || e.call != c || !e.UndoRead?
    requires (e.BeginUndo? || e.UndoClaim? || e.UndoOpen? || e.UndoGuard? || e.UndoRecord? || e.UndoStart?
       || e.UndoThrow? || e.UndoReturn? || e.UndoCommit? || e.UndoFail? || e.UndoFlush?) ==> e.call != c
    requires !e.UndoRead?
    ensures c in s.calls && s'.calls[c] == s.calls[c]
  {
    hide UpdateRun, CreateRun, ClaimRun, SaveSnapshot, RecordEffect, RecordConflict, MatchRequest, GuardError;
    hide UndoExpiration, AssertCanBeUndone;
  }

  lemma OwnRequestKept(s: State, s': State, e: Event, style: Style, c: CallId)
    requires Inv(s) && Apply(s, e, style) == Some(s')
    requires e.UndoClaim? || e.UndoOpen? || e.UndoGuard? || e.UndoRecord? || e.UndoStart?
          || e.UndoThrow? || e.UndoReturn? || e.UndoCommit? || e.UndoFail? || e.UndoFlush? || e.BeginUndo?
    requires e.call == c && c in s'.calls && s'.calls[c].UndoCall? && Admitted(s'.calls[c].undoPc)
    ensures c in s.calls && s.calls[c].UndoCall? && Admitted(s.calls[c].undoPc)
    ensures s'.calls[c].undo == s.calls[c].undo
    ensures WorksOn(s.calls[c].undoPc) == s.calls[c].undo.runId ==>
      WorksOn(s'.calls[c].undoPc) == s.calls[c].undo.runId
  {
    hide Inv;
    if e.UndoClaim? {
      ClaimKeepsRequest(s, s', c, e.t0, e.t1);
    } else if e.UndoReturn? {
      ReturnKeepsRequest(s, s', c, e.data, e.metadata, e.t0);
    } else {
      hide GuardError, RecordConflict, UpdateRun, AssertCanBeUndone;
    }
  }

  lemma ClaimKeepsRequest(s: State, s': State, c: CallId, t0: int, t1: int)
    requires Inv(s) && DoUndoClaim(s, c, t0, t1) == Some(s')
    requires c in s'.calls && s'.calls[c].UndoCall? && Admitted(s'.calls[c].undoPc)
    ensures c in s.calls && s.calls[c].UndoCall? && Admitted(s.calls[c].undoPc)
    ensures s'.calls[c].undo == s.calls[c].undo
    ensures WorksOn(s'.calls[c].undoPc) == s.calls[c].undo.runId
  {
    hide Inv, StoreState.Valid, AssertCanBeUndone;
    Facts(s);
    StoredUnderId(s.store, s.calls[c].undo.runId);
  }

  lemma ReturnKeepsRequest(s: State, s': State, c: CallId, data: Option<Json>, md: Option<Metadata>, t: int)
    requires Inv(s) && DoUndoReturn(s, c, data, md, t) == Some(s')
    ensures c in s.calls && s.calls[c].UndoCall? && Admitted(s.calls[c].undoPc)
    ensures IsUndo(s', c) && Admitted(s'.calls[c].undoPc) && s'.calls[c].undo == s.calls[c].undo
    ensures WorksOn(s'.calls[c].undoPc) == WorksOn(s.calls[c].undoPc)
  {
    hide Inv, StoreState.Valid, DirtyOk, ResolvedOk, Unblocked;
    Mine(s, c);
  }

  lemma ApplyKeepsServed(s: State, e: Event, style: Style)
    requires Inv(s) && AllServed(s) && Apply(s, e, style).Some?
    ensures AllServed(Apply(s, e, style).value)
  {
    hide Inv, Apply, StoreState.Valid, Edge;
    var s' := Apply(s, e, style).value;
    ApplyAdvances(s, e, style);
    forall c | c in s'.calls ensures ServesRequest(s', s'.calls[c]) {
      if s'.calls[c].UndoCall? && Admitted(s'.calls[c].undoPc) {
        if e.UndoRead? {
          ReadServes(s, s', e.call, e.refusal, style, c);
        } else {
          RequestKept(s, s', e, style, c);
        }
      }
    }
  }

  /** The first read admits a call only to a run of its own tenant. */
  lemma ReadServes(s: State, s': State, d: CallId, refusal: Option<ErrorCode>, style: Style, c: CallId)
    requires Inv(s) && AllServed(s) && Apply(s, UndoRead(d, refusal), style) == Some(s') && c in s'.calls
    ensures ServesRequest(s', s'.calls[c])
  {
    hide Inv, StoreState.Valid;
    if c == d && Admitted(s'.calls[c].undoPc) {
      DirtyIdentity(s, s.calls[c].undo.runId);
    }
  }

  lemma {:induction false} RunKeepsServed(s: State, events: seq<Event>, style: Style)
    requires Inv(s) && AllServed(s) && Run(s, events, style).Some?
    ensures AllServed(Run(s, events, style).value)
    decreases |events|
  {
    hide Inv, AllServed, Apply;
    if events != [] {
      ApplyKeepsInv(s, events[0], style);
      ApplyKeepsServed(s, events[0], style);
      RunKeepsServed(Apply(s, events[0], style).value, events[1..], style);
    }
  }

  /** No undo handler ever works on a run of another tenant, or on a run it was not asked for. */
  lemma UndoStaysInTenant(s: State, style: Style, c: CallId)
    requires Reachable(s, style) && IsUndo(s, c) && Admitted(s.calls[c].undoPc)
    ensures var req := s.calls[c].undo;
      && WorksOn(s.calls[c].undoPc) == req.runId && req.runId in Base(s).runs
      && Base(s).runs[req.runId].tenantId == req.tenantId
  {
    hide Inv, Run;
    var prefix: Text, clock: int, events: seq<Event> :|
      Run(Init(prefix, clock), events, style) == Some(s);
    InitInv(prefix, clock);
    RunKeepsServed(Init(prefix, clock), events, style);
  }

  /**
   The first read takes no lock and may see uncommitted writes, yet it decides as the committed
   state does: it admits an undo exactly when the run exists, has the asking tenant, and nothing else
   refuses it.
   */
  lemma FirstReadDecides(s: State, s': State, c: CallId, refusal: Option<ErrorCode>, style: Style)
    requires Reachable(s, style) && IsUndo(s, c) && Apply(s, UndoRead(c, refusal), style) == Some(s')
    ensures s'.store == s.store && s'.history == s.history && IsUndo(s', c)
    ensures var req, pc, runs := s.calls[c].undo, s'.calls[c].undoPc, Base(s).runs;
      && (Admitted(pc) <==>
            req.runId in runs && runs[req.runId].tenantId == req.tenantId && refusal.None?)
      && (req.runId !in runs ==> pc == UndoThrew(ACTION_NOT_FOUND))
      && (req.runId in runs && runs[req.runId].tenantId != req.tenantId ==>
            pc == UndoThrew(ACTION_PERMISSION_DENIED))
      && (req.runId in runs && runs[req.runId].tenantId == req.tenantId && refusal.Some? ==>
            pc == UndoThrew(refusal.value))
      && (Admitted(pc) ==> pc.Checked?)
  {
    hide Inv, Reachable, StoreState.Valid;
    ReachableInv(s, style);
    var id := s.calls[c].undo.runId;
    if id in s.store.runs {
      DirtyIdentity(s, id);
    } else {
      SameRunIds(s);
      assert id !in s.store.runs.Keys;
    }
  }

  lemma SameRunIds(s: State)
    requires Inv(s)
    ensures s.store.runs.Keys == Base(s).runs.Keys
  {
    hide StoreState.Valid;
  }

  // ---------------------------------------------------------------- what a claim answers

  /**
   What an undo gets when it claims its run at time `t0`, by the stored run alone: not found, already
   undone, not undoable (its status or the action), expired, or the claim, started at `t1`.
   */
  lemma UndoClaimAnswers(s: State, s': State, c: CallId, t0: int, t1: int, style: Style)
    requires Reachable(s, style) && Apply(s, UndoClaim(c, t0, t1), style) == Some(s')
    ensures IsUndo(s, c) && IsUndo(s', c) && s'.calls[c].undo == s.calls[c].undo
    ensures var id, pc := s.calls[c].undo.runId, s'.calls[c].undoPc;
      if id !in s.store.runs then pc == UndoThrew(ACTION_NOT_FOUND)
      else
        var run := s.store.runs[id];
        if run.status == Undone then pc == UndoThrew(ACTION_ALREADY_UNDONE)
        else if run.status != Completed || !run.reversibility.undoable then pc == UndoThrew(ACTION_NOT_UNDOABLE)
        else if run.undoExpiresAt.Some? && run.undoExpiresAt.value <= t0 then pc == UndoThrew(ACTION_UNDO_EXPIRED)
        else
          var claimed := run.(status := UndoRunning, undoStartedAt := Some(t1));
          pc == UndoClaimed(claimed) && s'.store == s.store.(runs := s.store.runs[id := claimed])
    ensures s'.calls[c].undoPc.UndoThrew? ==> s'.store == s.store && s'.history == s.history
  {
    hide Inv, Reachable, StoreState.Valid;
    ReachableInv(s, style);
    Facts(s);
  }

  // ---------------------------------------------------------------- undo windows

  /** The action is undoable and `t` is within its window after `from`. */
  predicate InWindow(req: ExecRequest, from: int, t: int) {
    req.create.reversibility.undoable && (req.undoWindowMs.Some? ==> t < from + req.undoWindowMs.value)
  }

  /**
   The undo window of a request decides every undo of the run it creates, whatever happens in
   between. While the run is completed, an undo checked at `u0` is claimed exactly when the action
   is undoable and the window, counted from the clock read by `execute`, has not passed, and is
   otherwise told which of the two is missing; and every undo that was claimed was checked in time.
   */
  lemma UndoWindowHolds(s: State, s': State, c: CallId, t0: int, t1: int, events: seq<Event>, style: Style)
    requires Reachable(s, style) && Apply(s, ExecClaim(c, t0, t1), style) == Some(s')
    requires IsExec(s, c) && IsExec(s', c) && s'.calls[c].execPc.Claimed?
    requires Run(s', events, style).Some?
    ensures var id, req, after := s'.calls[c].execPc.run.id, s.calls[c].exec, Run(s', events, style).value;
      && id in Base(after).runs
      && (Base(after).runs[id].status == Completed ==>
            forall d, u0, u1 | Apply(after, UndoClaim(d, u0, u1), style).Some? && after.calls[d].undo.runId == id ::
              Apply(after, UndoClaim(d, u0, u1), style).value.calls[d].undoPc ==
                if InWindow(req, t0, u0)
                then UndoClaimed(Base(after).runs[id].(status := UndoRunning, undoStartedAt := Some(u1)))
                else UndoThrew(if req.create.reversibility.undoable then ACTION_UNDO_EXPIRED else ACTION_NOT_UNDOABLE))
      && (UndoPhase(Base(after).runs[id].status) ==>
            id in after.history && InWindow(req, t0, after.history[id].checkedAt))
  {
    hide Inv, Reachable, StoreState.Valid, Run, UndoPhase, WasClaimed, DoExecClaim;
    assert DoExecClaim(s, c, t0, t1, style) == Some(s');
    hide Apply;
    ReachableInv(s, style);
    ApplyKeepsInv(s, ExecClaim(c, t0, t1), style);
    var id := s'.calls[c].execPc.run.id;
    ClaimSetsWindow(s, s', c, t0, t1, style);
    LifecycleHolds(s', events, style, id);
    RunKeepsInv(s', events, style);
    var after := Run(s', events, style).value;
    if UndoPhase(Base(after).runs[id].status) {
      ClaimedInTime(after, id);
    }
    if Base(after).runs[id].status == Completed {
      ReachableStep(s, ExecClaim(c, t0, t1), s', style);
      ReachableRun(s', events, style);
      forall d, u0, u1 | Apply(after, UndoClaim(d, u0, u1), style).Some? && after.calls[d].undo.runId == id
        ensures Apply(after, UndoClaim(d, u0, u1), style).value.calls[d].undoPc ==
          if InWindow(s.calls[c].exec, t0, u0)
          then UndoClaimed(Base(after).runs[id].(status := UndoRunning, undoStartedAt := Some(u1)))
          else UndoThrew(if s.calls[c].exec.create.reversibility.undoable then ACTION_UNDO_EXPIRED
                         else ACTION_NOT_UNDOABLE)
      {
        ClaimsAreFree(after, d, u0, u1, style);
        UndoClaimAnswers(after, Apply(after, UndoClaim(d, u0, u1), style).value, d, u0, u1, style);
      }
    }
  }

  lemma ClaimsAreFree(s: State, c: CallId, t0: int, t1: int, style: Style)
    requires Apply(s, UndoClaim(c, t0, t1), style).Some?
    ensures IsUndo(s, c) && Base(s) == s.store
  {
  }

  lemma {:induction false} ReachableRun(s: State, events: seq<Event>, style: Style)
    requires Reachable(s, style) && Run(s, events, style).Some?
    ensures Reachable(Run(s, events, style).value, style)
    decreases |events|
  {
    hide Reachable, Apply;
    if events != [] {
      var next := Apply(s, events[0], style).value;
      ReachableStep(s, events[0], next, style);
      ReachableRun(next, events[1..], style);
    }
  }

  lemma ClaimSetsWindow(s: State, s': State, c: CallId, t0: int, t1: int, style: Style)
    requires Inv(s) && DoExecClaim(s, c, t0, t1, style) == Some(s')
    requires IsExec(s, c) && IsExec(s', c) && s'.calls[c].execPc.Claimed?
    ensures var run, req := s'.calls[c].execPc.run, s.calls[c].exec;
      && run.id in Base(s').runs && Base(s').runs[run.id] == run
      && run.reversibility == req.create.reversibility
      && (run.reversibility.undoable ==>
            run.undoExpiresAt == if req.undoWindowMs.Some? then Some(t0 + req.undoWindowMs.value) else None)
  {
    hide Inv, StoreState.Valid, MatchRequest, FindScope, KeyFits;
  }

  lemma ClaimedInTime(s: State, id: Text)
    requires Inv(s) && id in Base(s).runs && UndoPhase(Base(s).runs[id].status)
    ensures id in s.history && Base(s).runs[id].reversibility.undoable
    ensures Base(s).runs[id].undoExpiresAt.Some? ==>
      s.history[id].checkedAt < Base(s).runs[id].undoExpiresAt.value
  {
    hide Inv, StoreState.Valid, SameIdentity;
    Committed(s, id);
  }

  lemma {:induction false} RunSnoc(s: State, events: seq<Event>, e: Event, style: Style)
    requires Run(s, events, style).Some?
    ensures Run(s, events + [e], style) == Apply(Run(s, events, style).value, e, style)
    decreases |events|
  {
    hide Apply;
    if events == [] {
      assert [e][1..] == [] && [] + [e] == [e];
    } else {
      assert (events + [e])[1..] == events[1..] + [e];
      RunSnoc(Apply(s, events[0], style).value, events[1..], e, style);
    }
  }

  lemma ReachableStep(s: State, e: Event, s': State, style: Style)
    requires Reachable(s, style) && Apply(s, e, style) == Some(s')
    ensures Reachable(s', style)
  {
    hide Run, Apply;
    var prefix: Text, clock: int, events: seq<Event> :|
      Run(Init(prefix, clock), events, style) == Some(s);
    RunSnoc(Init(prefix, clock), events, e, style);
  }

  const SOMEONE := Actor([], [], None)

  /** An undoable action with a window of five milliseconds. */
  const SHORT := ExecRequest(
    CreateInput([], SOMEONE, None, None, Json.Null, None, None, Reversibility(Full, true), None, None), Some(5))

  /** A run of it that was created at time 0 and has completed. */
  ghost predicate HasShortRun(s: State, style: Style, id: Text) {
    && Reachable(s, style) && s.holder.None? && s.clock == 0 && 1 !in s.calls
    && id in s.store.runs && id in s.history
    && var run := s.store.runs[id];
       run.status == Completed && run.reversibility.undoable && run.tenantId.None? && run.undoExpiresAt == Some(5)
  }

  lemma ShortRunReachable(style: Style) returns (s: State, id: Text)
    ensures HasShortRun(s, style, id)
  {
    hide Reachable;
    var s0, s1 := Init([], 0), Init([], 0).(calls := map[0 := ExecCall(SHORT, Requested)]);
    InitReachable(style);
    assert Apply(s0, BeginExec(0, SHORT), style) == Some(s1) by {
      assert map[][0 := ExecCall(SHORT, Requested)] == map[0 := ExecCall(SHORT, Requested)];
    }
    ReachableStep(s0, BeginExec(0, SHORT), s1, style);
    var s2 := Apply(s1, ExecClaim(0, 0, 0), style).value;
    ReachableStep(s1, ExecClaim(0, 0, 0), s2, style);
    id := s2.calls[0].execPc.run.id;
    var s3 := Apply(s2, ExecOpen(0), style).value;
    ReachableStep(s2, ExecOpen(0), s3, style);
    s := FinishShortRun(s3, id, style);
  }

  lemma InitReachable(style: Style)
    ensures Reachable(Init([], 0), style)
  {
    assert Run(Init([], 0), [], style) == Some(Init([], 0));
  }

  lemma FinishShortRun(s3: State, id: Text, style: Style) returns (s: State)
    requires Reachable(s3, style) && s3.clock == 0 && Holds(s3, 0) && 1 !in s3.calls
    requires IsExec(s3, 0) && s3.calls[0].execPc.Marked? && s3.calls[0].execPc.run.id == id
    requires id in s3.history && id in s3.store.runs
    requires var run := s3.store.runs[id];
      run.id == id && run.reversibility.undoable && run.tenantId.None? && run.undoExpiresAt == Some(5)
    ensures HasShortRun(s, style, id)
  {
    hide Reachable;
    var s4 := Apply(s3, ExecStart(0), style).value;
    ReachableStep(s3, ExecStart(0), s4, style);
    var s5 := Apply(s4, ExecReturn(0, None, None, 0), style).value;
    ReachableStep(s4, ExecReturn(0, None, None, 0), s5, style);
    s := Apply(s5, ExecCommit(0), style).value;
    ReachableStep(s5, ExecCommit(0), s, style);
  }

  /**
   The stored start of an undo can lie past the expiry: checked at time 0 in a window that ends at 5,
   an undo reads the clock again for its start, and a reachable state has it at 9.
   */
  lemma StartCanPassExpiry(style: Style) returns (s: State, id: Text)
    ensures Reachable(s, style) && id in s.store.runs && id in s.history
    ensures var run := s.store.runs[id];
      && run.status == UndoRunning && run.undoExpiresAt == Some(5) && run.undoStartedAt == Some(9)
      && s.history[id].checkedAt == 0
  {
    hide Reachable;
    var s0;
    s0, id := ShortRunReachable(style);
    var req := UndoRequest(id, SOMEONE, None);
    var s1 := Apply(s0, BeginUndo(1, req), style).value;
    ReachableStep(s0, BeginUndo(1, req), s1, style);
    var s2 := Apply(s1, UndoRead(1, None), style).value;
    ReachableStep(s1, UndoRead(1, None), s2, style);
    s := Apply(s2, UndoClaim(1, 0, 9), style).value;
    ReachableStep(s2, UndoClaim(1, 0, 9), s, style);
  }

  /** Once claimed, a run is never claimed again: every later undo of it is refused and stores nothing. */
  lemma LaterUndoIsRefused(s: State, events: seq<Event>, d: State, c: CallId, t0: int, t1: int,
                           s': State, style: Style)
    requires Reachable(s, style) && Run(s, events, style) == Some(d)
    requires IsUndo(d, c) && d.calls[c].undo.runId in Base(s).runs
    requires UndoPhase(Base(s).runs[d.calls[c].undo.runId].status)
    requires Apply(d, UndoClaim(c, t0, t1), style) == Some(s')
    ensures s'.store == d.store && s'.history == d.history
    ensures IsUndo(s', c) && s'.calls[c].undoPc.UndoThrew?
    ensures s'.calls[c].undoPc.error in {ACTION_ALREADY_UNDONE, ACTION_NOT_UNDOABLE}
    ensures s'.calls[c].undoPc.error == ACTION_ALREADY_UNDONE
      <==> d.store.runs[d.calls[c].undo.runId].status == Undone
  {
    hide Inv, Reachable, Run, StoreState.Valid;
    NeverCompletedAgain(s, events, style, d.calls[c].undo.runId);
  }

  // ---------------------------------------------------------------- how a call ends

  /**
   An execute handler that throws leaves nothing of what it wrote: uninterrupted, the call ends
   with the store as captured, except that its run is `failed`, at that time and with that error.
   */
  lemma FailedExecuteEndsClosed(s: State, c: CallId, thrown: Option<ErrorCode>, t: int, style: Style)
    requires Reachable(s, style) && IsExec(s, c) && s.calls[c].execPc.Handling? && s.clock <= t
    requires Apply(s, ExecThrow(c, thrown, t), style).Some?
    ensures var r := Run(s, [ExecThrow(c, thrown, t)] + ([ExecFail(c)] + []), style);
      var run, error := s.calls[c].execPc.run, if thrown.Some? then thrown.value else ACTION_EXECUTION_FAILED;
      && r.Some? && r.value.holder.None? && c in r.value.calls
      && r.value.calls[c] == s.calls[c].(execPc := ExecThrew(run.id, error))
      && run.id in Base(s).runs
      && r.value.store == Base(s).(runs := Base(s).runs[run.id :=
           Base(s).runs[run.id].(status := Failed, executedAt := Some(t), error := Some(error))])
  {
    hide Inv, Reachable, StoreState.Valid, Run, ResolvedOk, DirtyOk;
    ReachableInv(s, style);
    Mine(s, c);
    var s1 := Apply(s, ExecThrow(c, thrown, t), style).value;
    var s2 := Apply(s1, ExecFail(c), style).value;
    RunFirst(s, ExecThrow(c, thrown, t), [ExecFail(c)] + [], style);
    RunFirst(s1, ExecFail(c), [], style);
    RunNothing(s2, style);
  }
}
