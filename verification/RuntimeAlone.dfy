/**
 An execute or an undo that no other call interrupts, step by step to its end: what both are for.
 */
module RuntimeAlone {
  import opened Prelude
  import opened JsonText
  import opened Lifecycle
  import opened StoreState
  import opened Idempotency
  import opened CanonicalJson
  import opened Runtime
  import opened RuntimeInvariant
  import opened RuntimeSteps
  import opened RuntimeTheorems
  import opened RuntimeRequests
  import opened RuntimeOutcomes
  import opened RuntimeRecords

  lemma StepReaches(s: State, e: Event, s': State, rest: seq<Event>, style: Style)
    requires Reachable(s, style) && Apply(s, e, style) == Some(s')
    ensures Reachable(s', style) && Run(s, [e] + rest, style) == Run(s', rest, style)
  {
    hide Reachable, Apply;
    ReachableStep(s, e, s', style);
    RunFirst(s, e, rest, style);
  }

  /** The steps of an execute that nothing interrupts and whose handler returns. */
  function ExecuteEvents(c: CallId, req: ExecRequest, t0: int, t1: int, data: Option<Json>, md: Option<Metadata>, t2: int)
    : seq<Event>
  {
    [BeginExec(c, req)] + ([ExecClaim(c, t0, t1)] + ([ExecOpen(c)] + ([ExecStart(c)] +
      ([ExecReturn(c, data, md, t2)] + ([ExecCommit(c)] + [])))))
  }

  /** The request's run, completed: what the request gave, and what the handler answered. */
  ghost predicate CompletedFor(run: ActionRun, req: ExecRequest, t0: int, t1: int, data: Option<Json>,
                               md: Option<Metadata>, t2: int) {
    && MadeFor(run.(status := Created, executedAt := None, result := None, metadata := req.create.metadata),
               WithExpiry(req, t0), t1)
    && run.status == Completed && run.executedAt == Some(t2) && run.result == data
    && Layered(run.metadata, req.create.metadata, md, None)
  }

  /** Left alone, an execute whose key is free completes a new run with what its handler answers. */
  lemma ExecuteAlone(s: State, c: CallId, req: ExecRequest, t0: int, t1: int, data: Option<Json>, md: Option<Metadata>,
                     t2: int, style: Style) returns (s': State)
    requires Reachable(s, style) && s.holder.None? && c !in s.calls && t0 <= t1 && s.clock <= t1 <= t2
    requires var key := req.create.idempotencyKey;
      key.Some? ==>
        (Utf8Length(key.value) <= 255 && forall id | id in s.store.runs :: !TakenBy(s.store.runs[id], req.create))
    ensures Run(s, ExecuteEvents(c, req, t0, t1, data, md, t2), style) == Some(s')
    ensures Reachable(s', style) && s'.holder.None? && IsExec(s', c) && s'.calls[c].execPc.Executed?
    ensures s'.clock == t2
    ensures var run := s'.calls[c].execPc.run;
      && CompletedFor(run, req, t0, t1, data, md, t2)
      && run.id !in s.store.runs && s'.store.runs == s.store.runs[run.id := run]
      && s'.store.snapshots == s.store.snapshots && s'.store.effects == s.store.effects
      && s'.store.conflicts == s.store.conflicts
  {
    hide Inv, Reachable, Run, Layered, MadeFor, TakenBy, Utf8Length;
    var s1 := Apply(s, BeginExec(c, req), style).value;
    var tail5 := [ExecCommit(c)] + [];
    var tail4 := [ExecReturn(c, data, md, t2)] + tail5;
    var tail3 := [ExecStart(c)] + tail4;
    var tail2 := [ExecOpen(c)] + tail3;
    StepReaches(s, BeginExec(c, req), s1, [ExecClaim(c, t0, t1)] + tail2, style);
    var s2 := ClaimAlone(s1, c, t0, t1, style);
    StepReaches(s1, ExecClaim(c, t0, t1), s2, tail2, style);
    s' := CompleteAlone(s2, c, data, md, t2, style);
    CompletedIs(s2.calls[c].execPc.run, s'.calls[c].execPc.run, req, t0, t1, data, md, t2);
  }

  lemma ClaimAlone(s: State, c: CallId, t0: int, t1: int, style: Style) returns (s': State)
    requires Reachable(s, style) && s.holder.None? && IsExec(s, c) && s.calls[c].execPc.Requested?
    requires t0 <= t1 && s.clock <= t1
    requires var create := s.calls[c].exec.create;
      create.idempotencyKey.Some? ==>
        (Utf8Length(create.idempotencyKey.value) <= 255
         && forall id | id in s.store.runs :: !TakenBy(s.store.runs[id], create))
    ensures Apply(s, ExecClaim(c, t0, t1), style) == Some(s') && s'.holder.None? && s'.clock == t1
    ensures IsExec(s', c) && s'.calls[c].execPc.Claimed? && s'.calls[c].exec == s.calls[c].exec
    ensures var run := s'.calls[c].execPc.run;
      && MadeFor(run, WithExpiry(s.calls[c].exec, t0), t1) && run.id !in s.store.runs
      && s'.store.runs == s.store.runs[run.id := run]
      && s'.store.snapshots == s.store.snapshots && s'.store.effects == s.store.effects
      && s'.store.conflicts == s.store.conflicts
  {
    hide Reachable, MadeFor, TakenBy, Utf8Length;
    ClaimEnabled(s, c, t0, t1, style);
    s' := Apply(s, ExecClaim(c, t0, t1), style).value;
    ExecuteClaims(s, s', c, t0, t1, style);
  }

  lemma ClaimEnabled(s: State, c: CallId, t0: int, t1: int, style: Style)
    requires s.holder.None? && IsExec(s, c) && s.calls[c].execPc.Requested? && t0 <= t1 && s.clock <= t1
    ensures Apply(s, ExecClaim(c, t0, t1), style).Some?
    ensures var s' := Apply(s, ExecClaim(c, t0, t1), style).value; s'.holder.None? && s'.clock == t1
  {
    hide MatchRequest, CreateRun, ClaimRun;
  }

  /** From its claim on, left alone, an execute completes its run. */
  lemma CompleteAlone(s: State, c: CallId, data: Option<Json>, md: Option<Metadata>, t: int, style: Style)
    returns (s': State)
    requires Reachable(s, style) && s.holder.None? && IsExec(s, c) && s.calls[c].execPc.Claimed? && s.clock <= t
    ensures Reachable(s', style) && s'.holder.None? && IsExec(s', c) && s'.calls[c].execPc.Executed?
    ensures s'.clock == t
    ensures Run(s, [ExecOpen(c)] + ([ExecStart(c)] + ([ExecReturn(c, data, md, t)] + ([ExecCommit(c)] + []))), style)
         == Some(s')
    ensures var run := s.calls[c].execPc.run;
      && s'.calls[c].execPc.run == CompletedRun(run, data, md, t)
      && s'.store == s.store.(runs := s.store.runs[run.id := CompletedRun(run, data, md, t)])
  {
    hide Inv, Reachable, Run, Replace, MergeMetadata;
    var s1, s2 := OpenAlone(s, c, style);
    var tail2 := [ExecReturn(c, data, md, t)] + ([ExecCommit(c)] + []);
    StepReaches(s, ExecOpen(c), s1, [ExecStart(c)] + tail2, style);
    StepReaches(s1, ExecStart(c), s2, tail2, style);
    var s3 := ReturnAlone(s2, c, data, md, t, style);
    StepReaches(s2, ExecReturn(c, data, md, t), s3, [ExecCommit(c)] + [], style);
    s' := CommitAlone(s3, c, style);
    StepReaches(s3, ExecCommit(c), s', [], style);
    RunNothing(s', style);
  }

  lemma OpenAlone(s: State, c: CallId, style: Style) returns (s1: State, s2: State)
    requires Reachable(s, style) && s.holder.None? && IsExec(s, c) && s.calls[c].execPc.Claimed?
    ensures Apply(s, ExecOpen(c), style) == Some(s1) && Apply(s1, ExecStart(c), style) == Some(s2)
    ensures IsExec(s2, c) && Holds(s2, c) && s2.clock == s.clock
    ensures var run := s.calls[c].execPc.run;
      && s2.calls[c].execPc == Handling(run.(status := Running))
      && s2.store == s.store.(runs := s.store.runs[run.id := run.(status := Running)])
      && run.id in s2.history
  {
    hide Inv, Reachable, StoreState.Valid, DirtyOk, ResolvedOk;
    ReachableInv(s, style);
    Mine(s, c);
    s1 := Apply(s, ExecOpen(c), style).value;
    s2 := Apply(s1, ExecStart(c), style).value;
  }

  lemma ReturnAlone(s: State, c: CallId, data: Option<Json>, md: Option<Metadata>, t: int, style: Style)
    returns (s': State)
    requires IsExec(s, c) && Holds(s, c) && s.calls[c].execPc.Handling? && s.clock <= t
    requires var run := s.calls[c].execPc.run; run.status == Running && run.id in s.store.runs && s.store.runs[run.id] == run
    ensures Apply(s, ExecReturn(c, data, md, t), style) == Some(s') && Holds(s', c) && s'.history == s.history
    ensures s'.clock == t
    ensures var run := s.calls[c].execPc.run;
      var done := CompletedRun(run.(status := Created), data, md, t);
      && IsExec(s', c) && s'.calls[c].execPc == Wrote(done, data, md, t)
      && s'.store == s.store.(runs := s.store.runs[run.id := done])
  {
    s' := Apply(s, ExecReturn(c, data, md, t), style).value;
  }

  lemma CommitAlone(s: State, c: CallId, style: Style) returns (s': State)
    requires IsExec(s, c) && Holds(s, c) && s.calls[c].execPc.Wrote? && s.calls[c].execPc.run.id in s.history
    ensures Apply(s, ExecCommit(c), style) == Some(s') && s'.holder.None? && s'.store == s.store && s'.clock == s.clock
    ensures IsExec(s', c) && s'.calls[c].execPc == Executed(s.calls[c].execPc.run)
  {
    s' := Apply(s, ExecCommit(c), style).value;
  }

  lemma CompletedIs(run: ActionRun, done: ActionRun, req: ExecRequest, t0: int, t1: int, data: Option<Json>,
                    md: Option<Metadata>, t2: int)
    requires MadeFor(run, WithExpiry(req, t0), t1) && done == CompletedRun(run, data, md, t2)
    ensures CompletedFor(done, req, t0, t1, data, md, t2) && done.id == run.id
  {
    MergeLayers(run.metadata, md, None);
    hide Layered;
    assert run.metadata == req.create.metadata;
    MergedOrNone(run.metadata, md);
  }

  lemma MergedOrNone(a: Option<Metadata>, b: Option<Metadata>)
    ensures Replace(MergeMetadata(a, b), a) == MergeMetadata(a, b)
  {
  }

  /** The steps of an undo that nothing interrupts, records no conflict, and whose handler returns. */
  function UndoEvents(c: CallId, req: UndoRequest, t0: int, t1: int, data: Option<Json>, md: Option<Metadata>, t2: int)
    : seq<Event>
  {
    [BeginUndo(c, req)] + ([UndoRead(c, None)] + ([UndoClaim(c, t0, t1)] + ([UndoOpen(c)] + ([UndoGuard(c)] +
      ([UndoStart(c)] + ([UndoReturn(c, data, md, t2)] + ([UndoCommit(c)] + [])))))))
  }

  /** The run may be undone at this time by this request. */
  ghost predicate MayUndo(st: Store, req: UndoRequest, at: int) {
    && req.runId in st.runs && !Forbidden(st, req.runId)
    && var run := st.runs[req.runId];
       && run.status == Completed && run.reversibility.undoable && run.tenantId == req.tenantId
       && (run.undoExpiresAt.Some? ==> at < run.undoExpiresAt.value)
  }

  /** What a successful undo makes of a run, and nothing else about it changes. */
  ghost predicate UndoneBy(before: ActionRun, after: ActionRun, actor: Actor, t1: int, data: Option<Json>,
                           md: Option<Metadata>, t2: int) {
    && after == before.(status := Undone, undoStartedAt := Some(t1), undoneAt := Some(t2), undoneBy := Some(actor),
                        undoResult := after.undoResult, metadata := after.metadata)
    && after.undoResult == (if data.Some? then data else before.undoResult)
    && Layered(after.metadata, before.metadata, md, None)
  }

  /** Left alone, an undo of a completed run in its window, with nothing against it, undoes the run. */
  lemma UndoAlone(s: State, c: CallId, req: UndoRequest, t0: int, t1: int, data: Option<Json>, md: Option<Metadata>,
                  t2: int, style: Style) returns (s': State)
    requires Reachable(s, style) && s.holder.None? && c !in s.calls && s.clock <= t0 <= t1 <= t2
    requires MayUndo(s.store, req, t0)
    ensures Run(s, UndoEvents(c, req, t0, t1, data, md, t2), style) == Some(s')
    ensures Reachable(s', style) && s'.holder.None? && IsUndo(s', c) && s'.calls[c].undoPc.UndoReturned?
    ensures var run := s'.calls[c].undoPc.run;
      && UndoneBy(s.store.runs[req.runId], run, req.actor, t1, data, md, t2)
      && s'.store == s.store.(runs := s.store.runs[req.runId := run])
  {
    hide Inv, Reachable, Run, Layered, Forbidden, UndoneRun;
    var tail4 := [UndoStart(c)] + ([UndoReturn(c, data, md, t2)] + ([UndoCommit(c)] + []));
    var tail3 := [UndoOpen(c)] + ([UndoGuard(c)] + tail4);
    var tail2 := [UndoClaim(c, t0, t1)] + tail3;
    var s1 := Apply(s, BeginUndo(c, req), style).value;
    StepReaches(s, BeginUndo(c, req), s1, [UndoRead(c, None)] + tail2, style);
    var s2 := ReadAlone(s1, c, style);
    StepReaches(s1, UndoRead(c, None), s2, tail2, style);
    var s3 := ClaimUndoAlone(s2, c, t0, t1, style);
    StepReaches(s2, UndoClaim(c, t0, t1), s3, tail3, style);
    s' := FinishUndoAlone(s3, c, data, md, t2, style);
    UndoneIs(s.store.runs[req.runId], s3.calls[c].undoPc.run, req.actor, t1, data, md, t2);
  }

  lemma ReadAlone(s: State, c: CallId, style: Style) returns (s': State)
    requires Reachable(s, style) && s.holder.None? && IsUndo(s, c) && s.calls[c].undoPc.Asked?
    requires var req := s.calls[c].undo; req.runId in s.store.runs && s.store.runs[req.runId].tenantId == req.tenantId
    ensures Apply(s, UndoRead(c, None), style) == Some(s') && s'.holder.None? && s'.clock == s.clock
    ensures s'.store == s.store && IsUndo(s', c) && s'.calls[c].undo == s.calls[c].undo && s'.calls[c].undoPc.Checked?
  {
    hide Reachable;
    s' := Apply(s, UndoRead(c, None), style).value;
    FirstReadDecides(s, s', c, None, style);
  }

  lemma ClaimUndoAlone(s: State, c: CallId, t0: int, t1: int, style: Style) returns (s': State)
    requires Reachable(s, style) && s.holder.None? && IsUndo(s, c) && s.calls[c].undoPc.Checked? && s.clock <= t0 <= t1
    requires MayUndo(s.store, s.calls[c].undo, t0)
    ensures Apply(s, UndoClaim(c, t0, t1), style) == Some(s') && s'.holder.None? && s'.clock == t1
    ensures IsUndo(s', c) && s'.calls[c].undo == s.calls[c].undo
    ensures var id := s.calls[c].undo.runId;
      var claimed := s.store.runs[id].(status := UndoRunning, undoStartedAt := Some(t1));
      && s'.calls[c].undoPc == UndoClaimed(claimed) && s'.store == s.store.(runs := s.store.runs[id := claimed])
      && !Forbidden(s'.store, claimed.id) && claimed.id == id
  {
    hide Reachable, Inv;
    ReachableInv(s, style);
    StoredUnder(s, s.calls[c].undo.runId);
    UndoClaimEnabledAt(s, c, t0, t1, style);
    s' := Apply(s, UndoClaim(c, t0, t1), style).value;
    UndoClaimAnswers(s, s', c, t0, t1, style);
  }

  lemma UndoClaimEnabledAt(s: State, c: CallId, t0: int, t1: int, style: Style)
    requires Inv(s) && s.holder.None? && IsUndo(s, c) && s.calls[c].undoPc.Checked? && s.clock <= t0 <= t1
    ensures Apply(s, UndoClaim(c, t0, t1), style).Some?
    ensures var s' := Apply(s, UndoClaim(c, t0, t1), style).value; s'.holder.None? && s'.clock == t1
  {
    hide Inv, AssertCanBeUndone, Merge;
    Facts(s);
    assert forall id | id in Base(s).runs :: id in s.history.Keys;
  }

  /** From its claim on, left alone and with nothing against it, an undo undoes its run. */
  lemma FinishUndoAlone(s: State, c: CallId, data: Option<Json>, md: Option<Metadata>, t: int, style: Style)
    returns (s': State)
    requires Reachable(s, style) && s.holder.None? && IsUndo(s, c) && s.calls[c].undoPc.UndoClaimed? && s.clock <= t
    requires !Forbidden(s.store, s.calls[c].undoPc.run.id)
    ensures Reachable(s', style) && s'.holder.None? && IsUndo(s', c) && s'.calls[c].undoPc.UndoReturned?
    ensures Run(s, [UndoOpen(c)] + ([UndoGuard(c)] + ([UndoStart(c)] + ([UndoReturn(c, data, md, t)] +
                   ([UndoCommit(c)] + [])))), style) == Some(s')
    ensures var run := s.calls[c].undoPc.run;
      var done := UndoneRun(run, s.calls[c].undo.actor, data, md, t);
      s'.calls[c].undoPc.run == done && s'.store == s.store.(runs := s.store.runs[run.id := done])
  {
    hide Inv, Reachable, Run, Forbidden, Replace, MergeMetadata;
    var tail := [UndoReturn(c, data, md, t)] + ([UndoCommit(c)] + []);
    var s1, s2, s3 := StartAlone(s, c, style);
    StepReaches(s, UndoOpen(c), s1, [UndoGuard(c)] + ([UndoStart(c)] + tail), style);
    StepReaches(s1, UndoGuard(c), s2, [UndoStart(c)] + tail, style);
    StepReaches(s2, UndoStart(c), s3, tail, style);
    var s4 := UndoReturnAlone(s3, c, data, md, t, style);
    StepReaches(s3, UndoReturn(c, data, md, t), s4, [UndoCommit(c)] + [], style);
    s' := UndoCommitAlone(s4, c, style);
    StepReaches(s4, UndoCommit(c), s', [], style);
    RunNothing(s', style);
  }

  lemma StartAlone(s: State, c: CallId, style: Style) returns (s1: State, s2: State, s3: State)
    requires Reachable(s, style) && s.holder.None? && IsUndo(s, c) && s.calls[c].undoPc.UndoClaimed?
    requires !Forbidden(s.store, s.calls[c].undoPc.run.id)
    ensures Apply(s, UndoOpen(c), style) == Some(s1) && Apply(s1, UndoGuard(c), style) == Some(s2)
    ensures Apply(s2, UndoStart(c), style) == Some(s3)
    ensures IsUndo(s3, c) && Holds(s3, c) && s3.clock == s.clock && s3.store == s.store
    ensures s3.calls[c].undoPc == Undoing(s.calls[c].undoPc.run, []) && s3.calls[c].undo == s.calls[c].undo
    ensures var run := s.calls[c].undoPc.run;
      run.id in s3.store.runs && s3.store.runs[run.id] == run && run.id in s3.history
  {
    hide Inv, Reachable, Forbidden;
    ClaimStored(s, c, style);
    s1 := OpenUndoAlone(s, c, style);
    ReachableStep(s, UndoOpen(c), s1, style);
    s2 := GuardAlone(s1, c, style);
    s3 := BeginHandlerAlone(s2, c, style);
  }

  lemma ClaimStored(s: State, c: CallId, style: Style)
    requires Reachable(s, style) && s.holder.None? && IsUndo(s, c) && s.calls[c].undoPc.UndoClaimed?
    ensures var run := s.calls[c].undoPc.run;
      run.id in s.store.runs && s.store.runs[run.id] == run && run.id in s.history
  {
    hide Inv, Reachable, StoreState.Valid, DirtyOk, ResolvedOk;
    ReachableInv(s, style);
    Mine(s, c);
  }

  lemma OpenUndoAlone(s: State, c: CallId, style: Style) returns (s': State)
    requires s.holder.None? && IsUndo(s, c) && s.calls[c].undoPc.UndoClaimed?
    ensures Apply(s, UndoOpen(c), style) == Some(s')
    ensures IsUndo(s', c) && Holds(s', c) && s'.clock == s.clock && s'.store == s.store && s'.history == s.history
    ensures s'.calls[c] == s.calls[c].(undoPc := UndoOpened(s.calls[c].undoPc.run))
  {
    s' := Apply(s, UndoOpen(c), style).value;
  }

  lemma GuardAlone(s: State, c: CallId, style: Style) returns (s': State)
    requires Reachable(s, style) && IsUndo(s, c) && Holds(s, c) && s.calls[c].undoPc.UndoOpened?
    requires !Forbidden(s.store, s.calls[c].undoPc.run.id)
    ensures Apply(s, UndoGuard(c), style) == Some(s')
    ensures IsUndo(s', c) && Holds(s', c) && s'.clock == s.clock && s'.store == s.store && s'.history == s.history
    ensures s'.calls[c] == s.calls[c].(undoPc := Guarded(s.calls[c].undoPc.run, []))
  {
    hide Reachable, Forbidden, GuardError;
    s' := Apply(s, UndoGuard(c), style).value;
    GuardAnswers(s, s', c, style);
  }

  lemma BeginHandlerAlone(s: State, c: CallId, style: Style) returns (s': State)
    requires IsUndo(s, c) && Holds(s, c) && s.calls[c].undoPc.Guarded? && s.calls[c].undoPc.records == []
    requires s.calls[c].undoPc.run.id in s.history
    ensures Apply(s, UndoStart(c), style) == Some(s')
    ensures IsUndo(s', c) && Holds(s', c) && s'.clock == s.clock && s'.store == s.store
    ensures s'.calls[c] == s.calls[c].(undoPc := Undoing(s.calls[c].undoPc.run, [])) && s.calls[c].undoPc.run.id in s'.history
  {
    s' := Apply(s, UndoStart(c), style).value;
  }

  lemma UndoReturnAlone(s: State, c: CallId, data: Option<Json>, md: Option<Metadata>, t: int, style: Style)
    returns (s': State)
    requires IsUndo(s, c) && Holds(s, c) && s.calls[c].undoPc.Undoing? && s.clock <= t
    requires var run := s.calls[c].undoPc.run; run.id in s.store.runs && s.store.runs[run.id] == run
    ensures Apply(s, UndoReturn(c, data, md, t), style) == Some(s') && Holds(s', c) && s'.history == s.history
    ensures var run := s.calls[c].undoPc.run;
      var done := UndoneRun(run, s.calls[c].undo.actor, data, md, t);
      && IsUndo(s', c) && s'.calls[c].undoPc == UndoWrote(done, data, md, t)
      && s'.store == s.store.(runs := s.store.runs[run.id := done])
  {
    s' := Apply(s, UndoReturn(c, data, md, t), style).value;
  }

  lemma UndoCommitAlone(s: State, c: CallId, style: Style) returns (s': State)
    requires IsUndo(s, c) && Holds(s, c) && s.calls[c].undoPc.UndoWrote? && s.calls[c].undoPc.run.id in s.history
    ensures Apply(s, UndoCommit(c), style) == Some(s') && s'.holder.None? && s'.store == s.store
    ensures IsUndo(s', c) && s'.calls[c].undoPc == UndoReturned(s.calls[c].undoPc.run)
  {
    s' := Apply(s, UndoCommit(c), style).value;
  }

  lemma UndoneIs(before: ActionRun, claimed: ActionRun, actor: Actor, t1: int, data: Option<Json>, md: Option<Metadata>,
                 t2: int)
    requires claimed == before.(status := UndoRunning, undoStartedAt := Some(t1))
    ensures UndoneBy(before, UndoneRun(claimed, actor, data, md, t2), actor, t1, data, md, t2)
  {
    MergeLayers(before.metadata, md, None);
    hide Layered;
    MergedOrNone(before.metadata, md);
  }

  /**
   The whole of it: left alone, what was executed can be undone within its window by its tenant, and
   both handlers' answers are in the final run.
   */
  lemma ExecuteThenUndo(s: State, c: CallId, req: ExecRequest, d: CallId, actor: Actor, x0: int, x1: int, x2: int,
                        u0: int, u1: int, u2: int, data: Option<Json>, undoData: Option<Json>, style: Style)
    returns (s1: State, s2: State)
    requires Reachable(s, style) && s.holder.None? && c !in s.calls && d !in s.calls && c != d
    requires x0 <= x1 && s.clock <= x1 <= x2 <= u0 <= u1 <= u2
    requires req.create.idempotencyKey.None? && req.create.reversibility.undoable
    requires req.undoWindowMs.Some? ==> u0 < x0 + req.undoWindowMs.value
    ensures Run(s, ExecuteEvents(c, req, x0, x1, data, None, x2), style) == Some(s1)
    ensures IsExec(s1, c) && s1.calls[c].execPc.Executed?
    ensures var run := s1.calls[c].execPc.run;
      && CompletedFor(run, req, x0, x1, data, None, x2)
      && Run(s1, UndoEvents(d, UndoRequest(run.id, actor, req.create.tenantId), u0, u1, undoData, None, u2), style)
           == Some(s2)
      && IsUndo(s2, d) && s2.calls[d].undoPc.UndoReturned?
      && UndoneBy(run, s2.calls[d].undoPc.run, actor, u1, undoData, None, u2)
      && s2.store.runs == s.store.runs[run.id := s2.calls[d].undoPc.run]
  {
    hide Inv, Reachable, Run, Layered, UndoneBy, ExecuteEvents, UndoEvents, Utf8Length, TakenBy;
    s1 := ExecuteAlone(s, c, req, x0, x1, data, None, x2, style);
    var run := s1.calls[c].execPc.run;
    NothingAgainstNew(s, run.id, style);
    ExecuteKeepsOthers(s, c, req, x0, x1, data, None, x2, s1, d, style);
    assert MayUndo(s1.store, UndoRequest(run.id, actor, req.create.tenantId), u0);
    s2 := UndoAlone(s1, d, UndoRequest(run.id, actor, req.create.tenantId), u0, u1, undoData, None, u2, style);
  }

  /** Nothing is stored for an id that no run has. */
  lemma NothingAgainstNew(s: State, id: Text, style: Style)
    requires Reachable(s, style) && s.holder.None? && id !in s.store.runs
    ensures id !in s.store.conflicts && id !in s.store.effects
  {
    hide Inv, Reachable, RunsValid;
    ReachableInv(s, style);
    Facts(s);
  }

  lemma ExecuteKeepsOthers(s: State, c: CallId, req: ExecRequest, t0: int, t1: int, data: Option<Json>,
                           md: Option<Metadata>, t2: int, s': State, d: CallId, style: Style)
    requires Run(s, ExecuteEvents(c, req, t0, t1, data, md, t2), style) == Some(s') && d !in s.calls && d != c
    ensures d !in s'.calls
  {
    hide Run, Apply;
    CallsGrow(s, ExecuteEvents(c, req, t0, t1, data, md, t2), s', c, d, style);
  }

  lemma {:induction false} CallsGrow(s: State, events: seq<Event>, s': State, c: CallId, d: CallId, style: Style)
    requires Run(s, events, style) == Some(s') && d !in s.calls && d != c
    requires forall e | e in events :: Stepper(e) == Some(c)
    ensures d !in s'.calls
    decreases |events|
  {
    hide Apply;
    if events != [] {
      assert events[0] in events;
      var next := Apply(s, events[0], style).value;
      OwnCallOnly(s, next, events[0], d, style);
      CallsGrow(next, events[1..], s', c, d, style);
    }
  }

  lemma OwnCallOnly(s: State, s': State, e: Event, d: CallId, style: Style)
    requires Apply(s, e, style) == Some(s') && d !in s.calls && Stepper(e) != Some(d)
    ensures d !in s'.calls
  {
    hide UpdateRun, CreateRun, ClaimRun, SaveSnapshot, RecordEffect, RecordConflict, MatchRequest, GuardError;
    hide UndoExpiration, AssertCanBeUndone, UndoTenantMatches;
  }
}
