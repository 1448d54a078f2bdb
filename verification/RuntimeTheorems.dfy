/** What the runtime promises, over every schedule of any number of concurrent calls. */
module RuntimeTheorems {
  import opened Prelude
  import opened JsonText
  import opened Lifecycle
  import opened StoreState
  import opened Idempotency
  import opened CanonicalJson
  import opened Sorting
  import opened Runtime
  import opened RuntimeInvariant
  import opened RuntimeSteps

  /** Some schedule from an empty store leads here. */
  ghost predicate Reachable(s: State, style: Style) {
    exists prefix: Text, clock: int, events: seq<Event> ::
      Run(Init(prefix, clock), events, style) == Some(s)
  }

  lemma ReachableInv(s: State, style: Style)
    requires Reachable(s, style)
    ensures Inv(s)
  {
    hide Inv, Run;
    var prefix: Text, clock: int, events: seq<Event> :|
      Run(Init(prefix, clock), events, style) == Some(s);
    InitInv(prefix, clock);
    RunKeepsInv(Init(prefix, clock), events, style);
  }

  // ---------------------------------------------------------------- at most once

  /** No handler of any run starts twice, in any schedule. */
  lemma HandlersStartAtMostOnce(s: State, style: Style, id: Text)
    requires Reachable(s, style) && id in s.history
    ensures s.history[id].execStarts <= 1 && s.history[id].undoStarts <= 1
    ensures s.history[id].undoStarts == 1 ==> s.history[id].execCommits == 1
  {
    hide Inv, Reachable, StoreState.Valid;
    ReachableInv(s, style);
    Facts(s);
    Committed(s, id);
  }

  /**
   When an undo handler starts, its run was committed as completed and claimed exactly once, no
   undo handler of that run had started, and no conflict or completed irreversible effect is
   stored for it and none was just recorded.
   */
  lemma UndoHandlerStartsGuarded(s: State, s': State, c: CallId, style: Style)
    requires Reachable(s, style) && Apply(s, UndoStart(c), style) == Some(s')
    requires s'.calls[c].undoPc.Undoing?
    ensures var id := s.calls[c].undoPc.run.id;
      && id in s.history && id in Base(s).runs
      && Base(s).runs[id].status == UndoRunning
      && s.history[id].execCommits == 1 && s.history[id].undoClaims == 1
      && s.history[id].undoStarts == 0 && s'.history[id].undoStarts == 1
      && s.calls[c].undoPc.records == []
      && Unblocked(s.store, id)
  {
    hide Inv, Reachable, StoreState.Valid, Unblocked;
    ReachableInv(s, style);
    Mine(s, c);
    Committed(s, s.calls[c].undoPc.run.id);
  }

  lemma GuardConflicts(store: Store, run: ActionRun)
    requires run.id in store.runs && store.runs[run.id] == run
    ensures GuardError(store, run) in {None, Some(ACTION_CONFLICT)}
  {
    hide ReadChildren, Unblocked;
    GuardReadsEverything(store, run);
  }

  /** A stored conflict, a completed irreversible effect or a recorded conflict stops the undo. */
  lemma BlockedUndoNeverStarts(s: State, s': State, c: CallId, e: Event, style: Style)
    requires Reachable(s, style) && c in s.calls && s.calls[c].UndoCall?
    requires e == UndoGuard(c) || e == UndoStart(c)
    requires Apply(s, e, style) == Some(s')
    requires var pc := s.calls[c].undoPc;
      (pc.UndoOpened? && !Unblocked(s.store, pc.run.id)) || (pc.Guarded? && pc.records != [])
    ensures s'.calls[c].undoPc.UndoFailing? && s'.calls[c].undoPc.error == ACTION_CONFLICT
    ensures s'.calls[c].undoPc.records == if e.UndoStart? then s.calls[c].undoPc.records else []
    ensures s'.holder.None? && s'.store == Base(s) && s'.history == s.history
  {
    hide Inv, Reachable, StoreState.Valid, Unblocked;
    ReachableInv(s, style);
    if e == UndoGuard(c) {
      BlockedGuardStops(s, s', c);
    } else {
      RecordedConflictStops(s, s', c);
    }
  }

  lemma BlockedGuardStops(s: State, s': State, c: CallId)
    requires Inv(s) && DoUndoGuard(s, c) == Some(s') && !Unblocked(s.store, s.calls[c].undoPc.run.id)
    ensures IsUndo(s', c) && s'.calls[c].undoPc.UndoFailing? && s'.calls[c].undoPc.error == ACTION_CONFLICT
    ensures s'.calls[c].undoPc.records == []
    ensures s'.holder.None? && s'.store == Base(s) && s'.history == s.history
  {
    hide Inv, StoreState.Valid, Unblocked, GuardError, ReadChildren, ResolvedOk, DirtyOk;
    Mine(s, c);
    GuardConflicts(s.store, s.calls[c].undoPc.run);
    GuardReadsEverything(s.store, s.calls[c].undoPc.run);
  }

  lemma RecordedConflictStops(s: State, s': State, c: CallId)
    requires DoUndoStart(s, c) == Some(s') && s.calls[c].undoPc.records != []
    ensures IsUndo(s', c) && s'.calls[c].undoPc.UndoFailing? && s'.calls[c].undoPc.error == ACTION_CONFLICT
    ensures s'.calls[c].undoPc.records == s.calls[c].undoPc.records
    ensures s'.holder.None? && s'.store == Base(s) && s'.history == s.history
  {
  }

  // ---------------------------------------------------------------- lifecycle

  /** One committed status change. */
  predicate Edge(a: Status, b: Status) {
    || a == b
    || (a == Created && (b == Completed || b == Failed))
    || (a == Completed && b == UndoRunning)
    || (a == UndoRunning && (b == Undone || b == UndoFailed))
  }

  /** Any number of committed status changes. */
  predicate Leads(a: Status, b: Status) {
    || a == b
    || (a == Created && b in {Completed, Failed, UndoRunning, Undone, UndoFailed})
    || (a == Completed && b in {UndoRunning, Undone, UndoFailed})
    || (a == UndoRunning && b in {Undone, UndoFailed})
  }

  predicate UndoPhase(a: Status) {
    a in {UndoRunning, Undone, UndoFailed}
  }

  /** A single step moves each committed run along one edge and leaves its identity alone. */
  ghost predicate Advances(s: State, s': State) {
    forall id | id in Base(s).runs ::
      && id in Base(s').runs
      && SameIdentity(Base(s').runs[id], Base(s).runs[id])
      && Edge(Base(s).runs[id].status, Base(s').runs[id].status)
  }

  lemma ApplyAdvances(s: State, e: Event, style: Style)
    requires Inv(s) && Apply(s, e, style).Some?
    ensures Advances(s, Apply(s, e, style).value)
  {
    hide Inv, Advances, Base;
    hide DoExecClaim, DoExecCommit, DoExecFail, DoUndoClaim, DoUndoCommit, DoUndoFail, DoExecOpen, DoExecStart;
    hide DoExecSnapshot, DoExecEffect, DoExecThrow, DoExecReturn, DoUndoRead, DoUndoOpen, DoUndoGuard;
    hide DoUndoRecord, DoUndoStart, DoUndoThrow, DoUndoReturn, DoUndoFlush, DoOutsideConflict, DoOutsideEffect;
    var s' := Apply(s, e, style).value;
    match e
    case ExecClaim(c, t0, t1) => ClaimAdvances(s, s', c, t0, t1, style);
    case ExecCommit(c) => CommitAdvances(s, s', c);
    case UndoCommit(c) => CommitAdvances(s, s', c);
    case ExecFail(c) => ExecFailAdvances(s, s', c);
    case UndoClaim(c, t0, t1) => UndoClaimAdvances(s, s', c, t0, t1);
    case UndoFail(c) => UndoFailAdvances(s, s', c);
    case _ =>
      QuietAdvances(s, s', e, style);
      SameRunsAdvance(s, s');
  }

  lemma SameRunsAdvance(s: State, s': State)
    requires Base(s').runs == Base(s).runs
    ensures Advances(s, s')
  {
    hide Base;
  }

  /** Writing one committed run along an edge advances the state. */
  lemma OneRunAdvances(s: State, s': State, id: Text)
    requires id in Base(s).runs && id in Base(s').runs
    requires Base(s').runs == Base(s).runs[id := Base(s').runs[id]]
    requires SameIdentity(Base(s').runs[id], Base(s).runs[id])
    requires Edge(Base(s).runs[id].status, Base(s').runs[id].status)
    ensures Advances(s, s')
  {
    hide Base, SameIdentity;
    forall r: ActionRun ensures SameIdentity(r, r) {
      IdentityReflexive(r);
    }
  }

  lemma IdentityReflexive(r: ActionRun)
    ensures SameIdentity(r, r)
  {
  }

  /** Claiming stores at most one run, with an unused id, and no record of any kind. */
  lemma ClaimWritesOne(s: State, s': State, c: CallId, t0: int, t1: int, style: Style)
    requires Inv(s) && DoExecClaim(s, c, t0, t1, style) == Some(s')
    ensures s.holder.None? && s'.holder.None? && IsExec(s', c)
    ensures s'.store.snapshots == s.store.snapshots && s'.store.conflicts == s.store.conflicts
    ensures if s'.calls[c].execPc.Claimed? then
        var run := s'.calls[c].execPc.run;
        run.id !in s.store.runs && s'.store.runs == s.store.runs[run.id := run]
      else s'.store.runs == s.store.runs
  {
    hide Inv, StoreState.Valid, MatchRequest, CreateRun, ClaimRun;
    Facts(s);
    var req := s.calls[c].exec;
    var input := req.create.(
      undoExpiresAt := UndoExpiration(req.create.reversibility, req.undoWindowMs, t0));
    CreateAddsOne(s.store, input, t1);
  }

  lemma CreateAddsOne(st: Store, input: CreateInput, now: int)
    requires StoreState.Valid(st)
    ensures CreateRun(st, input, now).Ok? ==>
      var (after, run) := CreateRun(st, input, now).value; AddsRun(st, after, run)
    ensures input.idempotencyKey.Some? && ClaimRun(st, input, now).Ok? ==>
      var (after, run, created) := ClaimRun(st, input, now).value;
      if created then AddsRun(st, after, run) else after == st
  {
    hide StoreState.Valid, KeyFits, FindScope, NewRun;
    CreateRunKeepsValid(st, input, now);
  }

  predicate AddsRun(st: Store, after: Store, run: ActionRun) {
    && run.id !in st.runs && after.runs == st.runs[run.id := run]
    && after.snapshots == st.snapshots && after.conflicts == st.conflicts
  }

  lemma ClaimAdvances(s: State, s': State, c: CallId, t0: int, t1: int, style: Style)
    requires Inv(s) && DoExecClaim(s, c, t0, t1, style) == Some(s')
    ensures Advances(s, s')
  {
    hide Inv, DoExecClaim, Advances;
    ClaimWritesOne(s, s', c, t0, t1, style);
    if s'.calls[c].execPc.Claimed? {
      NewRunAdvances(s, s', s'.calls[c].execPc.run);
    } else {
      SameRunsAdvance(s, s');
    }
  }

  lemma NewRunAdvances(s: State, s': State, run: ActionRun)
    requires run.id !in Base(s).runs && Base(s').runs == Base(s).runs[run.id := run]
    ensures Advances(s, s')
  {
    hide Base;
  }

  lemma CommitAdvances(s: State, s': State, c: CallId)
    requires Inv(s) && (DoExecCommit(s, c) == Some(s') || DoUndoCommit(s, c) == Some(s'))
    ensures Advances(s, s')
  {
    hide Inv, StoreState.Valid, Advances, RunOk, SameIdentity;
    if s.calls[c].ExecCall? {
      ExecutedOk(s, s', c);
      CommitStatus(s, c);
      CommittedRuns(s, s', c, s.calls[c].execPc.run.id);
      OneRunAdvances(s, s', s.calls[c].execPc.run.id);
    } else {
      UndoneOk(s, s', c);
      CommitStatus(s, c);
      CommittedRuns(s, s', c, s.calls[c].undoPc.run.id);
      OneRunAdvances(s, s', s.calls[c].undoPc.run.id);
    }
  }

  /** The status a transaction is about to commit. */
  lemma CommitStatus(s: State, c: CallId)
    requires Inv(s) && c in s.calls
    ensures s.calls[c].ExecCall? && s.calls[c].execPc.Wrote? ==>
      var id := s.calls[c].execPc.run.id; id in s.store.runs && s.store.runs[id].status == Completed
    ensures s.calls[c].UndoCall? && s.calls[c].undoPc.UndoWrote? ==>
      var id := s.calls[c].undoPc.run.id; id in s.store.runs && s.store.runs[id].status == Undone
  {
    hide Inv, StoreState.Valid, DirtyOk, ResolvedOk, Unblocked;
    Mine(s, c);
  }

  /** Committing changes the committed runs at the transaction's own run only. */
  lemma CommittedRuns(s: State, s': State, c: CallId, id: Text)
    requires Inv(s) && Holds(s, c) && c in s.calls && Owned(s.calls[c]) == Some(id)
    requires s'.holder.None? && s'.store == s.store && id in s.store.runs
    ensures id in Base(s').runs && Base(s').runs == Base(s).runs[id := Base(s').runs[id]]
  {
    hide Inv, StoreState.Valid, CallOk, ResolvedOk, InTransaction;
    Mine(s, c);
    assert s.store.runs.Keys == Base(s).runs.Keys;
  }

  lemma ExecFailAdvances(s: State, s': State, c: CallId)
    requires Inv(s) && DoExecFail(s, c) == Some(s')
    ensures Advances(s, s')
  {
    hide Inv, StoreState.Valid, Advances, DirtyOk, ResolvedOk;
    Mine(s, c);
    OneRunAdvances(s, s', s.calls[c].execPc.run.id);
  }

  lemma UndoClaimAdvances(s: State, s': State, c: CallId, t0: int, t1: int)
    requires Inv(s) && DoUndoClaim(s, c, t0, t1) == Some(s')
    ensures Advances(s, s')
  {
    hide Inv, StoreState.Valid, Advances;
    if s'.calls[c].undoPc.UndoThrew? {
      SameRunsAdvance(s, s');
    } else {
      OneRunAdvances(s, s', s.calls[c].undo.runId);
    }
  }

  lemma UndoFailAdvances(s: State, s': State, c: CallId)
    requires Inv(s) && DoUndoFail(s, c) == Some(s')
    ensures Advances(s, s')
  {
    hide Inv, StoreState.Valid, Advances, DirtyOk, ResolvedOk;
    Mine(s, c);
    OneRunAdvances(s, s', s.calls[c].undoPc.run.id);
  }

  predicate Quiet(e: Event) {
    && !e.ExecClaim? && !e.ExecCommit? && !e.UndoCommit?
    && !e.ExecFail? && !e.UndoClaim? && !e.UndoFail?
  }

  /** Every other step leaves the committed runs and their snapshots alone. */
  lemma QuietAdvances(s: State, s': State, e: Event, style: Style)
    requires Inv(s) && Apply(s, e, style) == Some(s') && Quiet(e)
    ensures Base(s').runs == Base(s).runs && Base(s').snapshots == Base(s).snapshots
  {
    hide Inv;
    if e.ExecOpen? || e.ExecStart? || e.ExecSnapshot? || e.ExecEffect? || e.ExecThrow? || e.ExecReturn? {
      QuietExec(s, s', e, style);
    } else if e.UndoFlush? || e.OutsideConflict? || e.OutsideEffect? || e.BeginExec? || e.BeginUndo? {
      QuietOutside(s, s', e, style);
    } else {
      QuietUndo(s, s', e, style);
    }
  }

  lemma QuietExec(s: State, s': State, e: Event, style: Style)
    requires Apply(s, e, style) == Some(s')
    requires e.ExecOpen? || e.ExecStart? || e.ExecSnapshot? || e.ExecEffect? || e.ExecThrow? || e.ExecReturn?
    ensures Base(s').runs == Base(s).runs && Base(s').snapshots == Base(s).snapshots
  {
    hide UpdateRun, SaveSnapshot, RecordEffect;
  }

  lemma QuietUndo(s: State, s': State, e: Event, style: Style)
    requires Apply(s, e, style) == Some(s')
    requires e.UndoRead? || e.UndoOpen? || e.UndoGuard? || e.UndoRecord? || e.UndoStart? || e.UndoThrow?
          || e.UndoReturn?
    ensures Base(s').runs == Base(s).runs && Base(s').snapshots == Base(s).snapshots
  {
    if e.UndoGuard? || e.UndoStart? || e.UndoThrow? {
      QuietAbort(s, s', e, style);
    } else {
      QuietMove(s, s', e, style);
    }
  }

  lemma QuietAbort(s: State, s': State, e: Event, style: Style)
    requires Apply(s, e, style) == Some(s') && (e.UndoGuard? || e.UndoStart? || e.UndoThrow?)
    ensures Base(s') == Base(s)
  {
    hide GuardError;
  }

  lemma QuietMove(s: State, s': State, e: Event, style: Style)
    requires Apply(s, e, style) == Some(s') && (e.UndoRead? || e.UndoOpen? || e.UndoRecord? || e.UndoReturn?)
    ensures Base(s') == Base(s)
  {
    hide UpdateRun, UndoTenantMatches;
  }

  lemma QuietOutside(s: State, s': State, e: Event, style: Style)
    requires Apply(s, e, style) == Some(s')
    requires e.UndoFlush? || e.OutsideConflict? || e.OutsideEffect? || e.BeginExec? || e.BeginUndo?
    ensures Base(s').runs == Base(s).runs && Base(s').snapshots == Base(s).snapshots
  {
  }

  /** Over any further schedule a run's status follows the lifecycle and its identity is fixed. */
  lemma {:induction false} LifecycleHolds(s: State, events: seq<Event>, style: Style, id: Text)
    requires Inv(s) && Run(s, events, style).Some? && id in Base(s).runs
    ensures var s' := Run(s, events, style).value;
      && id in Base(s').runs
      && SameIdentity(Base(s').runs[id], Base(s).runs[id])
      && Leads(Base(s).runs[id].status, Base(s').runs[id].status)
    decreases |events|
  {
    hide Inv, StoreState.Valid, Apply;
    if events != [] {
      var next := Apply(s, events[0], style).value;
      ApplyKeepsInv(s, events[0], style);
      ApplyAdvances(s, events[0], style);
      LifecycleHolds(next, events[1..], style, id);
    }
  }

  /** Once an undo has claimed a run, no later step returns it to `completed`. */
  lemma NeverCompletedAgain(s: State, events: seq<Event>, style: Style, id: Text)
    requires Reachable(s, style) && Run(s, events, style).Some?
    requires id in Base(s).runs && UndoPhase(Base(s).runs[id].status)
    ensures var s' := Run(s, events, style).value;
      id in Base(s').runs && UndoPhase(Base(s').runs[id].status)
  {
    hide Inv, Reachable, StoreState.Valid, Apply, Run;
    ReachableInv(s, style);
    LifecycleHolds(s, events, style, id);
  }

  // ---------------------------------------------------------------- what a read without the lock sees

  /**
   A stored run is the committed one, or it is the run of the open transaction: then it is running
   or completed where the committed run is created, or undone where that is being undone.
   */
  lemma ReadsSeeOpenRun(s: State, style: Style, id: Text)
    requires Reachable(s, style) && id in s.store.runs
    ensures id in Base(s).runs
    ensures s.store.runs[id] != Base(s).runs[id] ==>
      var seen, committed := s.store.runs[id].status, Base(s).runs[id].status;
      && s.holder.Some? && s.holder.value.call in s.calls && Owned(s.calls[s.holder.value.call]) == Some(id)
      && ((committed == Created && seen in {Running, Completed}) || (committed == UndoRunning && seen == Undone))
  {
    hide Inv, Reachable, StoreState.Valid, CallOk, ResolvedOk;
    ReachableInv(s, style);
    Facts(s);
    if s.holder.Some? {
      assert id in Base(s).runs.Keys;
      var c := s.holder.value.call;
      if Owned(s.calls[c]) == Some(id) {
        OpenRun(s, c);
      }
    }
  }

  /** The run of the open transaction, as stored and as committed. */
  lemma OpenRun(s: State, c: CallId)
    requires Inv(s) && c in s.calls && InTransaction(s.calls[c])
    ensures Owned(s.calls[c]).Some?
    ensures var id := Owned(s.calls[c]).value;
      && id in s.store.runs && id in Base(s).runs
      && SameIdentity(s.store.runs[id], Base(s).runs[id])
      && (s.store.runs[id] == Base(s).runs[id]
          || (Base(s).runs[id].status == Created && s.store.runs[id].status in {Running, Completed})
          || (Base(s).runs[id].status == UndoRunning && s.store.runs[id].status == Undone))
  {
    hide Inv, StoreState.Valid, ResolvedOk, DirtyOk, Unblocked;
    Mine(s, c);
  }

  /** A status change a read without the lock can observe, apart from an abort. */
  predicate VisibleEdge(a: Status, b: Status) {
    || a == b
    || (a == Created && (b == Running || b == Failed))
    || (a == Running && b == Completed)
    || (a == Completed && b == UndoRunning)
    || (a == UndoRunning && (b == Undone || b == UndoFailed))
  }

  /** Every stored run, committed or not, follows the lifecycle, or an abort takes it back. */
  ghost predicate VisiblyAdvances(s: State, s': State, aborts: bool) {
    forall id | id in s.store.runs ::
      && id in s'.store.runs && SameIdentity(s'.store.runs[id], s.store.runs[id])
      && (|| VisibleEdge(s.store.runs[id].status, s'.store.runs[id].status)
          || (&& aborts && id in Base(s).runs && s'.store.runs[id] == Base(s).runs[id]
              && s.store.runs[id].status == Running && s'.store.runs[id].status == Created))
  }

  /**
   Every step moves every stored run, uncommitted ones included, along one edge of the lifecycle
   through `running`, except that a throwing execute handler takes its run back to `created`.
   */
  lemma StoreAdvances(s: State, e: Event, style: Style)
    requires Inv(s) && Apply(s, e, style).Some?
    ensures VisiblyAdvances(s, Apply(s, e, style).value, e.ExecThrow?)
  {
    hide Inv, VisiblyAdvances, Base;
    var s' := Apply(s, e, style).value;
    if ChangesStatus(e) {
      hide Apply, Run;
      StatusStepAdvances(s, s', e, style);
    } else if Aborting(e) {
      AbortAdvances(s, s', e, style);
    } else {
      SameStoredRuns(s, s', e, style);
    }
  }

  predicate ChangesStatus(e: Event) {
    e.ExecClaim? || e.ExecOpen? || e.ExecReturn? || e.ExecFail? || e.UndoClaim? || e.UndoReturn? || e.UndoFail?
  }

  predicate Aborting(e: Event) {
    e.ExecThrow? || e.UndoGuard? || e.UndoStart? || e.UndoThrow?
  }

  lemma SameStoredRuns(s: State, s': State, e: Event, style: Style)
    requires Apply(s, e, style) == Some(s') && !ChangesStatus(e) && !Aborting(e)
    ensures VisiblyAdvances(s, s', e.ExecThrow?)
  {
    hide Base;
    if e.ExecSnapshot? || e.ExecEffect? || e.UndoFlush? || e.OutsideConflict? || e.OutsideEffect? {
      RecordsOnly(s, s', e, style);
    } else {
      NothingStored(s, s', e, style);
    }
  }

  lemma RecordsOnly(s: State, s': State, e: Event, style: Style)
    requires Apply(s, e, style) == Some(s')
    requires e.ExecSnapshot? || e.ExecEffect? || e.UndoFlush? || e.OutsideConflict? || e.OutsideEffect?
    ensures s'.store.runs == s.store.runs
  {
    hide Base;
  }

  lemma NothingStored(s: State, s': State, e: Event, style: Style)
    requires Apply(s, e, style) == Some(s') && !ChangesStatus(e) && !Aborting(e)
    requires !e.ExecSnapshot? && !e.ExecEffect? && !e.UndoFlush? && !e.OutsideConflict? && !e.OutsideEffect?
    ensures s'.store.runs == s.store.runs
  {
    hide Base, UndoTenantMatches;
  }

  lemma OneRunVisibly(s: State, s': State, id: Text)
    requires id in s.store.runs && id in s'.store.runs
    requires s'.store.runs == s.store.runs[id := s'.store.runs[id]]
    requires SameIdentity(s'.store.runs[id], s.store.runs[id])
    requires VisibleEdge(s.store.runs[id].status, s'.store.runs[id].status)
    ensures VisiblyAdvances(s, s', false)
  {
    hide Base;
  }

  lemma StatusStepAdvances(s: State, s': State, e: Event, style: Style)
    requires Inv(s) && Apply(s, e, style) == Some(s') && ChangesStatus(e)
    ensures VisiblyAdvances(s, s', false)
  {
    hide Inv, VisiblyAdvances, Base;
    if e.ExecClaim? {
      ClaimVisibly(s, s', e.call, e.t0, e.t1, style);
    } else if e.ExecOpen? || e.ExecReturn? || e.ExecFail? {
      ExecStepVisibly(s, s', e, style);
    } else {
      UndoStepVisibly(s, s', e, style);
    }
  }

  lemma ClaimVisibly(s: State, s': State, c: CallId, t0: int, t1: int, style: Style)
    requires Inv(s) && DoExecClaim(s, c, t0, t1, style) == Some(s')
    ensures VisiblyAdvances(s, s', false)
  {
    hide Inv, DoExecClaim, Base;
    ClaimWritesOne(s, s', c, t0, t1, style);
  }

  lemma ExecStepVisibly(s: State, s': State, e: Event, style: Style)
    requires Inv(s) && Apply(s, e, style) == Some(s') && (e.ExecOpen? || e.ExecReturn? || e.ExecFail?)
    ensures VisiblyAdvances(s, s', false)
  {
    hide Inv, StoreState.Valid, VisiblyAdvances, ResolvedOk, DirtyOk;
    Mine(s, e.call);
    OneRunVisibly(s, s', s.calls[e.call].execPc.run.id);
  }

  lemma UndoStepVisibly(s: State, s': State, e: Event, style: Style)
    requires Inv(s) && Apply(s, e, style) == Some(s') && (e.UndoClaim? || e.UndoReturn? || e.UndoFail?)
    ensures VisiblyAdvances(s, s', false)
  {
    hide Inv, StoreState.Valid, VisiblyAdvances, ResolvedOk, DirtyOk, Unblocked;
    Mine(s, e.call);
    if e.UndoClaim? {
      if s'.calls[e.call].undoPc.UndoThrew? {
        assert s'.store == s.store;
        StoreStays(s, s');
      } else {
        OneRunVisibly(s, s', s.calls[e.call].undo.runId);
      }
    } else {
      OneRunVisibly(s, s', s.calls[e.call].undoPc.run.id);
    }
  }

  lemma StoreStays(s: State, s': State)
    requires s'.store.runs == s.store.runs
    ensures VisiblyAdvances(s, s', false)
  {
    hide Base;
  }

  lemma AbortAdvances(s: State, s': State, e: Event, style: Style)
    requires Inv(s) && Apply(s, e, style) == Some(s') && Aborting(e)
    ensures VisiblyAdvances(s, s', e.ExecThrow?)
  {
    hide Inv, VisiblyAdvances, Base, SameIdentity, InTransaction, Owned;
    AbortStores(s, s', e, style);
    hide Apply;
    if s'.store == s.store {
      StoreStays(s, s');
      StaysEither(s, s', e.ExecThrow?);
    } else {
      OtherRunsCaptured(s, e.call);
      OpenRun(s, e.call);
      AbortedRun(s, e, style);
      TakenBack(s, s', Owned(s.calls[e.call]).value, e.ExecThrow?);
    }
  }

  /** While a transaction is open, every run but its own is stored as captured. */
  lemma OtherRunsCaptured(s: State, c: CallId)
    requires Inv(s) && Holds(s, c)
    ensures c in s.calls && InTransaction(s.calls[c]) && Owned(s.calls[c]).Some?
    ensures s.store.runs.Keys == Base(s).runs.Keys
    ensures forall id | id in Base(s).runs && id != Owned(s.calls[c]).value :: s.store.runs[id] == Base(s).runs[id]
  {
    hide Inv, StoreState.Valid, CallOk, ResolvedOk;
    Facts(s);
  }

  lemma AbortStores(s: State, s': State, e: Event, style: Style)
    requires Apply(s, e, style) == Some(s') && Aborting(e)
    ensures Holds(s, e.call) && (s'.store == s.store || s'.store == Base(s))
  {
    hide GuardError;
  }

  lemma StaysEither(s: State, s': State, aborts: bool)
    requires VisiblyAdvances(s, s', false)
    ensures VisiblyAdvances(s, s', aborts)
  {
    hide Base, SameIdentity;
  }

  /** An abort happens while an execute handler runs or before an undo handler has returned. */
  lemma AbortedRun(s: State, e: Event, style: Style)
    requires Inv(s) && Apply(s, e, style).Some? && Aborting(e) && Apply(s, e, style).value.store != s.store
    requires e.call in s.calls && Owned(s.calls[e.call]).Some?
    ensures var id := Owned(s.calls[e.call]).value;
      && id in s.store.runs && id in Base(s).runs
      && (s.store.runs[id] == Base(s).runs[id]
          || (e.ExecThrow? && s.store.runs[id].status == Running && Base(s).runs[id].status == Created))
  {
    hide Inv, StoreState.Valid, ResolvedOk, DirtyOk, Unblocked, GuardError;
    Mine(s, e.call);
  }

  lemma TakenBack(s: State, s': State, own: Text, aborts: bool)
    requires s'.store == Base(s) && s.store.runs.Keys == Base(s).runs.Keys && own in s.store.runs
    requires forall id | id in Base(s).runs && id != own :: s.store.runs[id] == Base(s).runs[id]
    requires SameIdentity(s.store.runs[own], Base(s).runs[own])
    requires s.store.runs[own] == Base(s).runs[own]
          || (aborts && s.store.runs[own].status == Running && Base(s).runs[own].status == Created)
    ensures VisiblyAdvances(s, s', aborts)
  {
    hide Base;
    forall id | id in s.store.runs ensures id in Base(s).runs {
      assert id in Base(s).runs.Keys;
    }
  }

  /** The times of a run, where present, are in the order of its lifecycle. */
  ghost predicate TimesOrdered(run: ActionRun) {
    && (run.executedAt.Some? ==> run.createdAt <= run.executedAt.value)
    && (run.undoStartedAt.Some? ==>
          run.executedAt.Some? && run.executedAt.value <= run.undoStartedAt.value)
    && (run.undoneAt.Some? ==>
          run.undoStartedAt.Some? && run.undoStartedAt.value <= run.undoneAt.value)
  }

  /** Every stored run, committed or not, has its times in order under one non-decreasing clock. */
  lemma TimesAreOrdered(s: State, style: Style, id: Text)
    requires Reachable(s, style)
    ensures id in Base(s).runs ==> TimesOrdered(Base(s).runs[id])
    ensures id in s.store.runs ==> TimesOrdered(s.store.runs[id])
  {
    hide Inv, Reachable, StoreState.Valid, RunOk, TimesOrdered, DirtyOk;
    ReachableInv(s, style);
    Facts(s);
    if id in Base(s).runs {
      Committed(s, id);
      CommittedTimes(Base(s).runs[id], s.history[id], s.clock);
    }
    if s.holder.Some? && id in s.store.runs {
      UncommittedTimes(s, id);
    }
  }

  lemma CommittedTimes(run: ActionRun, h: History, clock: int)
    requires RunOk(run, h, clock)
    ensures TimesOrdered(run)
  {
    hide SameIdentity;
  }

  lemma UncommittedTimes(s: State, id: Text)
    requires Inv(s) && s.holder.Some? && id in s.store.runs
    ensures TimesOrdered(s.store.runs[id])
  {
    hide Inv, StoreState.Valid, RunOk, TimesOrdered, CallOk, ResolvedOk;
    Facts(s);
    var c := s.holder.value.call;
    assert id in Base(s).runs.Keys;
    Committed(s, id);
    CommittedTimes(Base(s).runs[id], s.history[id], s.clock);
    if Owned(s.calls[c]) == Some(id) {
      OwnTimes(s, c);
    }
  }

  /** The open transaction writes times in order too. */
  lemma OwnTimes(s: State, c: CallId)
    requires Inv(s) && Holds(s, c) && c in s.calls && Owned(s.calls[c]).Some?
    requires var id := Owned(s.calls[c]).value; id in s.store.runs && id in Base(s).runs
    ensures TimesOrdered(s.store.runs[Owned(s.calls[c]).value])
  {
    hide Inv, StoreState.Valid, ResolvedOk, DirtyOk, Unblocked, SameIdentity;
    Mine(s, c);
    Committed(s, Owned(s.calls[c]).value);
  }

  /** An undo was claimed at a time when the run was completed, undoable and not expired. */
  lemma UndoWasInTime(s: State, style: Style, id: Text)
    requires Reachable(s, style) && id in Base(s).runs && UndoPhase(Base(s).runs[id].status)
    ensures id in s.history
    ensures var run, h := Base(s).runs[id], s.history[id];
      && run.reversibility.undoable && run.executedAt.Some? && run.undoStartedAt.Some?
      && run.executedAt.value <= h.checkedAt <= run.undoStartedAt.value
      && (run.undoExpiresAt.Some? ==> h.checkedAt < run.undoExpiresAt.value)
  {
    hide Inv, Reachable, StoreState.Valid;
    ReachableInv(s, style);
    Facts(s);
    Committed(s, id);
  }

  /** The value of one property, if it is set. */
  function Property(md: Option<Metadata>, key: Text): Option<Json> {
    if md.Some? && key in md.value then Some(md.value[key]) else None
  }

  /** Every property has the value that the last of the three to set it gave it. */
  ghost predicate Layered(md: Option<Metadata>, first: Option<Metadata>, second: Option<Metadata>,
                          third: Option<Metadata>) {
    && (md.None? <==> first.None? && second.None? && third.None?)
    && forall key ::
         Property(md, key) ==
           if Property(third, key).Some? then Property(third, key)
           else if Property(second, key).Some? then Property(second, key)
           else Property(first, key)
  }

  lemma MergeLayers(first: Option<Metadata>, second: Option<Metadata>, third: Option<Metadata>)
    ensures Layered(MergeMetadata(MergeMetadata(first, second), third), first, second, third)
    ensures Layered(MergeMetadata(first, second), first, second, None)
    ensures Layered(first, first, None, None)
  {
  }

  /** Final metadata is the right-biased merge of request, execute and undo metadata. */
  lemma MetadataIsMerged(s: State, style: Style, id: Text)
    requires Reachable(s, style) && id in Base(s).runs
    ensures id in s.history
    ensures var run, h := Base(s).runs[id], s.history[id];
      && (run.status in {Created, Failed} ==> Layered(run.metadata, h.input.metadata, None, None))
      && (run.status in {Completed, UndoRunning, UndoFailed} ==>
            Layered(run.metadata, h.input.metadata, h.execMetadata, None))
      && (run.status == Undone ==>
            Layered(run.metadata, h.input.metadata, h.execMetadata, h.undoMetadata))
  {
    hide Inv, Reachable, StoreState.Valid, Layered, MergeMetadata;
    ReachableInv(s, style);
    Facts(s);
    Committed(s, id);
    var h := s.history[id];
    MergeLayers(h.input.metadata, h.execMetadata, h.undoMetadata);
  }

  // ---------------------------------------------------------------- idempotency

  /** At most one committed run exists per tenant, action, actor and key. */
  lemma OneRunPerKey(s: State, style: Style, a: Text, b: Text)
    requires Reachable(s, style) && a in Base(s).runs && b in Base(s).runs
    requires Base(s).runs[a].idempotencyKey.Some?
    requires RunScope(Base(s).runs[a]) == RunScope(Base(s).runs[b])
    ensures a == b
  {
    hide Reachable, StoreState.Valid, RunsOk, DirtyOk;
    ReachableInv(s, style);
  }

  /** All keyed calls of one scope that got past claiming name the same run. */
  lemma SameKeySameRun(s: State, style: Style, c: CallId, d: CallId)
    requires Reachable(s, style) && IsExec(s, c) && IsExec(s, d)
    requires s.calls[c].exec.create.idempotencyKey.Some?
    requires InputScope(s.calls[c].exec.create) == InputScope(s.calls[d].exec.create)
    requires Resolved(s.calls[c]).Some? && Resolved(s.calls[d]).Some?
    ensures Resolved(s.calls[c]) == Resolved(s.calls[d])
  {
    hide Inv, Reachable, StoreState.Valid;
    ReachableInv(s, style);
    Mine(s, c);
    Mine(s, d);
    var a, b := Resolved(s.calls[c]).value, Resolved(s.calls[d]).value;
    assert InputScope(s.calls[c].exec.create).key == RunScope(Base(s).runs[a]).key;
    OneRunPerKey(s, style, a, b);
  }

  /**
   A keyed request whose scope already has a run stores nothing and gets that run or an idempotency
   conflict, whatever the key comparator does. The identical request is always accepted, and an
   accepted one asks for the same input and target.
   */
  lemma ReplayStoresNothing(s: State, s': State, c: CallId, t0: int, t1: int, style: Style, id: Text)
    requires Reachable(s, style) && Apply(s, ExecClaim(c, t0, t1), style) == Some(s')
    requires id in s.store.runs && s.calls[c].exec.create.idempotencyKey.Some?
    requires KeyFits(s.calls[c].exec.create.idempotencyKey.value)
    requires RunScope(s.store.runs[id]) == InputScope(s.calls[c].exec.create)
    ensures s'.store == s.store && s'.history == s.history && IsExec(s', c)
    ensures var run, req, pc := s.store.runs[id], s.calls[c].exec.create, s'.calls[c].execPc;
      && pc in {Replayed(run), Mismatched(id, IDEMPOTENCY_CONFLICT)}
      && (pc.Replayed? <==> MatchRequest(run, req.input, req.target, style).None?)
      && (run.input == req.input && SameTarget(run.target, req.target) ==> pc.Replayed?)
      && (pc.Replayed? && FaithfulNumbers(style) ==>
            Same(run.input, req.input) && SameTarget(run.target, req.target))
  {
    hide Inv, Reachable, StoreState.Valid, Same, SameTarget, MatchRequest;
    ReachableInv(s, style);
    Facts(s);
    var req := s.calls[c].exec.create;
    FindScopeDecides(s.store, InputScope(req));
    var found := FindScope(s.store.order, s.store.runs, InputScope(req)).value;
    assert RunScope(found).key == InputScope(req).key;
    OneRunPerKey(s, style, id, found.id);
    MatchCode(found, req.input, req.target, style);
    if found.input == req.input && SameTarget(found.target, req.target) {
      ResentIsAccepted(found, req.target, style);
    }
    if MatchRequest(found, req.input, req.target, style).None? && FaithfulNumbers(style) {
      AcceptedReplayIsSame(found, req.input, req.target, style);
    }
  }

  /** Up to key order the request decides too, when no object of the stored input has keys that tie. */
  lemma ReplayDecides(s: State, s': State, c: CallId, t0: int, t1: int, style: Style, id: Text)
    requires Reachable(s, style) && FaithfulNumbers(style) && Consistent(style.compareKeys)
    requires Apply(s, ExecClaim(c, t0, t1), style) == Some(s')
    requires id in s.store.runs && s.calls[c].exec.create.idempotencyKey.Some?
    requires KeyFits(s.calls[c].exec.create.idempotencyKey.value)
    requires RunScope(s.store.runs[id]) == InputScope(s.calls[c].exec.create)
    requires WellFormed(s.store.runs[id].input) && WellFormed(s.calls[c].exec.create.input)
    requires KeysApart(s.store.runs[id].input, style)
    ensures s'.store == s.store && s'.history == s.history
    ensures var run, req := s.store.runs[id], s.calls[c].exec.create;
      s'.calls[c].execPc ==
        if Same(run.input, req.input) && SameTarget(run.target, req.target) then Replayed(run)
        else Mismatched(id, IDEMPOTENCY_CONFLICT)
  {
    hide Inv, Reachable, Same, SameTarget, MatchRequest, WellFormed, KeysApart, FaithfulNumbers, Consistent, RunScope, KeyFits;
    assert IsExec(s, c);
    hide Apply;
    ReplayStoresNothing(s, s', c, t0, t1, style, id);
    var req := s.calls[c].exec.create;
    MatchDecidesSameRequest(s.store.runs[id], req.input, req.target, style);
  }

  lemma MatchCode(run: ActionRun, input: Json, target: Option<Target>, style: Style)
    ensures MatchRequest(run, input, target, style) in {None, Some(IDEMPOTENCY_CONFLICT)}
  {
    hide Print;
  }

  // ---------------------------------------------------------------- failed undo

  /** A handler that returns stores none of the conflicts it recorded. */
  lemma ReturningHandlerDropsConflicts(s: State, s': State, c: CallId, style: Style)
    requires Reachable(s, style) && Apply(s, UndoCommit(c), style) == Some(s')
    ensures s'.store.conflicts == Base(s).conflicts && s'.store.effects == Base(s).effects
  {
    hide Inv, Reachable, StoreState.Valid;
    ReachableInv(s, style);
    Facts(s);
    Mine(s, c);
  }

  function FlushEvents(c: CallId, ts: seq<int>): (r: seq<Event>)
    ensures |r| == |ts|
  {
    if ts == [] then [] else [UndoFlush(c, ts[0])] + FlushEvents(c, ts[1..])
  }

  ghost predicate NonDecreasing(ts: seq<int>, from: int) {
    && (forall i :: 0 <= i < |ts| ==> from <= ts[i])
    && (forall i, j :: 0 <= i < j < |ts| ==> ts[i] <= ts[j])
  }

  /** One step of a flush: the next conflict is stored, or none is left and the error is thrown. */
  lemma FlushOne(s: State, c: CallId, t: int, style: Style) returns (next: State)
    requires IsUndo(s, c) && s.holder.None? && s.calls[c].undoPc.Flushing? && s.clock <= t
    requires s.calls[c].undoPc.runId in s.store.runs
    ensures Apply(s, UndoFlush(c, t), style) == Some(next) && next.holder.None? && IsUndo(next, c)
    ensures var pc := s.calls[c].undoPc;
      if pc.records == [] then
        next.store == s.store && next.calls[c] == s.calls[c].(undoPc := UndoThrew(pc.error))
      else
        && next.clock == t && ConflictsAppended(s.store, next.store, pc.runId, [pc.records[0]])
        && next.calls[c] == s.calls[c].(undoPc := Flushing(pc.runId, pc.error, pc.records[1..]))
  {
    hide ConflictsAppended, RecordConflict;
    var pc := s.calls[c].undoPc;
    if pc.records != [] {
      RecordOneAppends(s.store, pc.runId, pc.records[0], t);
    }
    next := Apply(s, UndoFlush(c, t), style).value;
  }

  lemma RunNothing(s: State, style: Style)
    ensures Run(s, [], style) == Some(s)
  {
  }

  /** Flushing stores every deferred conflict, in order, after those already stored. */
  lemma {:induction false} FlushStoresAll(s: State, c: CallId, ts: seq<int>, style: Style)
    requires IsUndo(s, c) && s.holder.None? && s.calls[c].undoPc.Flushing?
    requires s.calls[c].undoPc.runId in s.store.runs
    requires |ts| == |s.calls[c].undoPc.records| + 1 && NonDecreasing(ts, s.clock)
    ensures var r := Run(s, FlushEvents(c, ts), style);
      && r.Some? && r.value.holder.None? && c in r.value.calls
      && r.value.calls[c] == s.calls[c].(undoPc := UndoThrew(s.calls[c].undoPc.error))
      && ConflictsAppended(s.store, r.value.store, s.calls[c].undoPc.runId, s.calls[c].undoPc.records)
    decreases |ts|
  {
    hide ConflictsAppended, Apply, Run;
    var pc := s.calls[c].undoPc;
    var next := FlushOne(s, c, ts[0], style);
    assert FlushEvents(c, ts) == [UndoFlush(c, ts[0])] + FlushEvents(c, ts[1..]);
    RunFirst(s, UndoFlush(c, ts[0]), FlushEvents(c, ts[1..]), style);
    if pc.records == [] {
      RunNothing(next, style);
      AppendNothing(s.store, pc.runId);
    } else {
      AppendedKeepsRuns(s.store, next.store, pc.runId, [pc.records[0]]);
      FlushStoresAll(next, c, ts[1..], style);
      var last := Run(next, FlushEvents(c, ts[1..]), style).value;
      AppendMore(s.store, next.store, last.store, pc.runId, [pc.records[0]], pc.records[1..]);
      assert [pc.records[0]] + pc.records[1..] == pc.records;
    }
  }

  lemma RunFirst(s: State, e: Event, rest: seq<Event>, style: Style)
    requires Apply(s, e, style).Some?
    ensures Run(s, [e] + rest, style) == Run(Apply(s, e, style).value, rest, style)
  {
    hide Apply;
    assert ([e] + rest)[1..] == rest;
  }

  /** What an aborted and flushed undo of `run` leaves behind, against the captured state. */
  ghost predicate ClosedBy(saved: Store, after: Store, run: ActionRun, error: ErrorCode,
                           records: seq<ConflictBody>) {
    && run.id in after.runs
    && after.runs[run.id] == run.(status := UndoFailed, error := Some(error))
    && ConflictsAppended(saved.(runs := saved.runs[run.id := after.runs[run.id]]), after, run.id, records)
  }

  /** The steps that abort an undo: its guard, its recorded conflicts, or an exception. */
  predicate Aborts(e: Event, c: CallId) {
    e == UndoGuard(c) || e == UndoStart(c) || (e.UndoThrow? && e.call == c)
  }

  /**
   An undo that aborts, for whichever reason, and is not interleaved can always end, with: the
   transaction's writes gone, the run `undo_failed`, and the stored conflicts followed by the
   recorded ones in order.
   */
  lemma FailedUndoEndsClosed(s: State, e: Event, s1: State, c: CallId, ts: seq<int>, style: Style)
    requires Reachable(s, style) && Aborts(e, c) && Apply(s, e, style) == Some(s1)
    requires IsUndo(s1, c) && s1.calls[c].undoPc.UndoFailing?
    requires |ts| == |s1.calls[c].undoPc.records| + 1 && NonDecreasing(ts, s1.clock)
    ensures var pc, r := s1.calls[c].undoPc, Run(s1, [UndoFail(c)] + FlushEvents(c, ts), style);
      && r.Some? && r.value.holder.None? && IsUndo(r.value, c)
      && r.value.calls[c].undoPc == UndoThrew(pc.error)
      && ClosedBy(Base(s), r.value.store, pc.run, pc.error, pc.records)
      && (e.UndoThrow? ==> pc.error == if e.thrown.Some? then e.thrown.value else ACTION_UNDO_FAILED)
      && (!e.UndoThrow? ==> pc.error == ACTION_CONFLICT)
  {
    hide Inv, Reachable, StoreState.Valid, ConflictsAppended, NonDecreasing, Run, GuardError;
    ReachableInv(s, style);
    assert IsUndo(s, c) && (e == UndoGuard(c) || s.calls[c].undoPc.Guarded? || s.calls[c].undoPc.Undoing?);
    hide Apply;
    AbortStep(s, e, s1, c, style);
    var s2 := FailStep(s1, c, style);
    RunFirst(s1, UndoFail(c), FlushEvents(c, ts), style);
    FlushStoresAll(s2, c, ts, style);
    AppendedKeepsRuns(s2.store, Run(s2, FlushEvents(c, ts), style).value.store,
                      s1.calls[c].undoPc.run.id, s1.calls[c].undoPc.records);
  }

  /** Every abort restores the captured store, frees the lock and keeps the recorded conflicts aside. */
  lemma AbortStep(s: State, e: Event, s1: State, c: CallId, style: Style)
    requires IsUndo(s, c) && (e == UndoGuard(c) || s.calls[c].undoPc.Guarded? || s.calls[c].undoPc.Undoing?)
    requires IsUndo(s1, c) && s1.calls[c].undoPc.UndoFailing?
    requires Inv(s) && Aborts(e, c) && Apply(s, e, style) == Some(s1)
    ensures s1.holder.None? && s1.clock == s.clock && s1.store == Base(s)
    ensures var pc := s1.calls[c].undoPc;
      && pc.run.id in s1.store.runs && s1.store.runs[pc.run.id] == pc.run
      && pc.records == (if e.UndoGuard? then [] else s.calls[c].undoPc.records)
      && (e.UndoThrow? ==> pc.error == if e.thrown.Some? then e.thrown.value else ACTION_UNDO_FAILED)
      && (!e.UndoThrow? ==> pc.error == ACTION_CONFLICT)
  {
    hide Inv, StoreState.Valid, Apply;
    AbortEffect(s, e, s1, c, style);
    ClaimedRun(s, c);
    if e == UndoGuard(c) {
      GuardConflicts(s.store, s.calls[c].undoPc.run);
    }
  }

  lemma AbortEffect(s: State, e: Event, s1: State, c: CallId, style: Style)
    requires IsUndo(s, c) && (e == UndoGuard(c) || s.calls[c].undoPc.Guarded? || s.calls[c].undoPc.Undoing?)
    requires IsUndo(s1, c) && s1.calls[c].undoPc.UndoFailing?
    requires Aborts(e, c) && Apply(s, e, style) == Some(s1)
    ensures InTransaction(s.calls[c]) && !s.calls[c].undoPc.UndoWrote?
    ensures s1.holder.None? && s1.clock == s.clock && s1.store == Base(s)
    ensures var pc := s1.calls[c].undoPc;
      && pc.run == s.calls[c].undoPc.run
      && pc.records == (if e.UndoGuard? then [] else s.calls[c].undoPc.records)
      && (e.UndoThrow? ==> pc.error == if e.thrown.Some? then e.thrown.value else ACTION_UNDO_FAILED)
      && (e.UndoStart? ==> pc.error == ACTION_CONFLICT)
      && (e.UndoGuard? ==> GuardError(s.store, pc.run) == Some(pc.error))
  {
    hide GuardError;
  }

  /** Inside an undo's transaction its run is stored and committed as it was claimed. */
  lemma ClaimedRun(s: State, c: CallId)
    requires Inv(s) && IsUndo(s, c) && InTransaction(s.calls[c]) && !s.calls[c].undoPc.UndoWrote?
    ensures var run := s.calls[c].undoPc.run;
      && run.id in Base(s).runs && Base(s).runs[run.id] == run
      && run.id in s.store.runs && s.store.runs[run.id] == run
  {
    hide Inv, StoreState.Valid, ResolvedOk, DirtyOk, Unblocked;
    Mine(s, c);
  }

  lemma FailStep(s: State, c: CallId, style: Style) returns (s': State)
    requires IsUndo(s, c) && s.holder.None? && s.calls[c].undoPc.UndoFailing?
    requires var run := s.calls[c].undoPc.run; run.id in s.store.runs && s.store.runs[run.id] == run
    ensures var pc := s.calls[c].undoPc;
      && Apply(s, UndoFail(c), style) == Some(s')
      && IsUndo(s', c) && s'.holder.None? && s'.clock == s.clock
      && s'.calls[c].undoPc == Flushing(pc.run.id, pc.error, pc.records)
      && s'.store == s.store.(runs :=
           s.store.runs[pc.run.id := pc.run.(status := UndoFailed, error := Some(pc.error))])
  {
    s' := Apply(s, UndoFail(c), style).value;
  }

  // ---------------------------------------------------------------- progress

  predicate Finished(call: Call) {
    match call
    case ExecCall(_, pc) =>
      pc.Executed? || pc.ExecThrew? || pc.Replayed? || pc.Mismatched? || pc.Rejected?
    case UndoCall(_, pc) => pc.UndoReturned? || pc.UndoThrew?
  }

  /** A step the call can take next, reading the clock as it stands. */
  function NextEvent(s: State, c: CallId): Event
    requires c in s.calls && !Finished(s.calls[c])
  {
    match s.calls[c]
    case ExecCall(_, pc) =>
      (match pc
       case Requested => ExecClaim(c, s.clock, s.clock)
       case Claimed(_) => ExecOpen(c)
       case Marked(_) => ExecStart(c)
       case Handling(_) => ExecReturn(c, None, None, s.clock)
       case Wrote(_, _, _, _) => ExecCommit(c)
       case Failing(_, _, _) => ExecFail(c))
    case UndoCall(_, pc) =>
      (match pc
       case Asked => UndoRead(c, None)
       case Checked(_) => UndoClaim(c, s.clock, s.clock)
       case UndoClaimed(_) => UndoOpen(c)
       case UndoOpened(_) => UndoGuard(c)
       case Guarded(_, _) => UndoStart(c)
       case Undoing(_, _) => UndoReturn(c, None, None, s.clock)
       case UndoWrote(_, _, _, _) => UndoCommit(c)
       case UndoFailing(_, _, _) => UndoFail(c)
       case Flushing(_, _, _) => UndoFlush(c, s.clock))
  }

  /**
   No call is ever stuck: the holder of the lock can step, and when the lock is free every
   unfinished call can. In particular the writes after an abort never fail.
   */
  lemma NeverStuck(s: State, c: CallId, style: Style)
    requires Reachable(s, style) && c in s.calls && !Finished(s.calls[c])
    requires s.holder.None? || Holds(s, c)
    ensures Apply(s, NextEvent(s, c), style).Some?
  {
    hide Inv, Reachable;
    ReachableInv(s, style);
    if s.calls[c].ExecCall? {
      ExecNeverStuck(s, c, style);
    } else {
      UndoNeverStuck(s, c, style);
    }
  }

  lemma ExecNeverStuck(s: State, c: CallId, style: Style)
    requires Inv(s) && IsExec(s, c) && !Finished(s.calls[c])
    requires s.holder.None? || Holds(s, c)
    ensures Apply(s, NextEvent(s, c), style).Some?
  {
    hide Inv, StoreState.Valid, MatchRequest, FindScope, ResolvedOk, DirtyOk, KeyFits, CreateRun;
    Mine(s, c);
  }

  lemma UndoNeverStuck(s: State, c: CallId, style: Style)
    requires Inv(s) && IsUndo(s, c) && !Finished(s.calls[c])
    requires s.holder.None? || Holds(s, c)
    ensures Apply(s, NextEvent(s, c), style).Some?
  {
    hide Inv, StoreState.Valid, GuardError, AssertCanBeUndone, ResolvedOk, DirtyOk, UndoTenantMatches, Unblocked;
    Mine(s, c);
    Facts(s);
    var pc := s.calls[c].undoPc;
    if pc.Checked? {
      UndoClaimEnabled(s, c);
    } else if InTransaction(s.calls[c]) {
      UndoInsideNeverStuck(s, c, style);
    }
  }

  lemma UndoInsideNeverStuck(s: State, c: CallId, style: Style)
    requires IsUndo(s, c) && InTransaction(s.calls[c]) && Holds(s, c) && CallOk(s, c)
    ensures Apply(s, NextEvent(s, c), style).Some?
  {
    hide GuardError, Unblocked, Base;
  }

  lemma UndoClaimEnabled(s: State, c: CallId)
    requires s.history.Keys == Base(s).runs.Keys && s.holder.None?
    requires IsUndo(s, c) && s.calls[c].undoPc.Checked?
    ensures DoUndoClaim(s, c, s.clock, s.clock).Some?
  {
    hide AssertCanBeUndone, Merge;
    assert forall id | id in Base(s).runs :: id in s.history.Keys;
  }
}
