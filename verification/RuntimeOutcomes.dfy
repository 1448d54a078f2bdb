/** How calls end, whatever every other call does in between: one trace per call, kept by every step. */
module RuntimeOutcomes {
  import opened Prelude
  import opened JsonText
  import opened Lifecycle
  import opened StoreState
  import opened Idempotency
  import opened CanonicalJson
  import opened Runtime
  import opened RuntimeInvariant
  import opened RuntimeSteps
  import opened RuntimeTheorems

  // ---------------------------------------------------------------- who writes committed runs

  /** The call that may write a committed run in this step. */
  function Writer(e: Event): Option<CallId> {
    match e
    case ExecCommit(c) => Some(c)
    case ExecFail(c) => Some(c)
    case UndoClaim(c, _, _) => Some(c)
    case UndoCommit(c) => Some(c)
    case UndoFail(c) => Some(c)
    case _ => None
  }

  /** Every committed run stays as it is, or its owner or a new undo moves it to another status. */
  ghost predicate OnlyOwnersWrite(s: State, s': State, w: Option<CallId>) {
    forall id | id in Base(s).runs ::
      && id in Base(s').runs
      && (|| Base(s').runs[id] == Base(s).runs[id]
          || (&& w.Some? && w.value in s.calls
              && (Owned(s.calls[w.value]) == Some(id) || Base(s).runs[id].status == Completed)
              && Base(s').runs[id].status != Base(s).runs[id].status))
  }

  lemma SameRunsWrite(s: State, s': State, w: Option<CallId>)
    requires Base(s').runs == Base(s).runs
    ensures OnlyOwnersWrite(s, s', w)
  {
    hide Base, Owned;
  }

  lemma OneRunWrites(s: State, s': State, c: CallId, id: Text)
    requires id in Base(s).runs && id in Base(s').runs && c in s.calls
    requires Base(s').runs == Base(s).runs[id := Base(s').runs[id]]
    requires Owned(s.calls[c]) == Some(id) || Base(s).runs[id].status == Completed
    requires Base(s').runs[id].status != Base(s).runs[id].status
    ensures OnlyOwnersWrite(s, s', Some(c))
  {
    hide Base, Owned;
  }

  lemma ApplyOnlyOwners(s: State, e: Event, style: Style)
    requires Inv(s) && Apply(s, e, style).Some?
    ensures OnlyOwnersWrite(s, Apply(s, e, style).value, Writer(e))
  {
    hide Inv, OnlyOwnersWrite, Base;
    hide DoExecClaim, DoExecCommit, DoExecFail, DoUndoClaim, DoUndoCommit, DoUndoFail, DoExecOpen, DoExecStart;
    hide DoExecSnapshot, DoExecEffect, DoExecThrow, DoExecReturn, DoUndoRead, DoUndoOpen, DoUndoGuard;
    hide DoUndoRecord, DoUndoStart, DoUndoThrow, DoUndoReturn, DoUndoFlush, DoOutsideConflict, DoOutsideEffect;
    var s' := Apply(s, e, style).value;
    match e
    case ExecClaim(c, t0, t1) => ClaimWrites(s, s', c, t0, t1, style);
    case ExecCommit(c) => CommitWrites(s, s', c);
    case UndoCommit(c) => CommitWrites(s, s', c);
    case ExecFail(c) => ExecFailWrites(s, s', c);
    case UndoClaim(c, t0, t1) => UndoClaimWrites(s, s', c, t0, t1);
    case UndoFail(c) => UndoFailWrites(s, s', c);
    case _ =>
      QuietAdvances(s, s', e, style);
      SameRunsWrite(s, s', None);
  }

  lemma ClaimWrites(s: State, s': State, c: CallId, t0: int, t1: int, style: Style)
    requires Inv(s) && DoExecClaim(s, c, t0, t1, style) == Some(s')
    ensures OnlyOwnersWrite(s, s', None)
  {
    hide Inv, DoExecClaim;
    ClaimWritesOne(s, s', c, t0, t1, style);
  }

  lemma CommitWrites(s: State, s': State, c: CallId)
    requires Inv(s) && (DoExecCommit(s, c) == Some(s') || DoUndoCommit(s, c) == Some(s'))
    ensures OnlyOwnersWrite(s, s', Some(c))
  {
    hide Inv, StoreState.Valid, OnlyOwnersWrite, RunOk, SameIdentity, CallOk, ResolvedOk;
    CommitStatus(s, c);
    if s.calls[c].ExecCall? {
      ExecutedOk(s, s', c);
      CommittedRuns(s, s', c, s.calls[c].execPc.run.id);
      OneRunWrites(s, s', c, s.calls[c].execPc.run.id);
    } else {
      UndoneOk(s, s', c);
      CommittedRuns(s, s', c, s.calls[c].undoPc.run.id);
      OneRunWrites(s, s', c, s.calls[c].undoPc.run.id);
    }
  }

  lemma ExecFailWrites(s: State, s': State, c: CallId)
    requires Inv(s) && DoExecFail(s, c) == Some(s')
    ensures OnlyOwnersWrite(s, s', Some(c))
  {
    hide Inv, StoreState.Valid, OnlyOwnersWrite, DirtyOk, ResolvedOk;
    Mine(s, c);
    OneRunWrites(s, s', c, s.calls[c].execPc.run.id);
  }

  lemma UndoClaimWrites(s: State, s': State, c: CallId, t0: int, t1: int)
    requires Inv(s) && DoUndoClaim(s, c, t0, t1) == Some(s')
    ensures OnlyOwnersWrite(s, s', Some(c))
  {
    hide Inv, StoreState.Valid, OnlyOwnersWrite;
    if s'.calls[c].undoPc.UndoThrew? {
      SameRunsWrite(s, s', Some(c));
    } else {
      OneRunWrites(s, s', c, s.calls[c].undo.runId);
    }
  }

  lemma UndoFailWrites(s: State, s': State, c: CallId)
    requires Inv(s) && DoUndoFail(s, c) == Some(s')
    ensures OnlyOwnersWrite(s, s', Some(c))
  {
    hide Inv, StoreState.Valid, OnlyOwnersWrite, DirtyOk, ResolvedOk;
    Mine(s, c);
    OneRunWrites(s, s', c, s.calls[c].undoPc.run.id);
  }

  /** The call that takes the step, if it is one. */
  function Stepper(e: Event): Option<CallId> {
    if e.OutsideConflict? || e.OutsideEffect? then None else Some(e.call)
  }

  /** Every other call stays where it is. */
  lemma BystanderStays(s: State, s': State, e: Event, style: Style, c: CallId)
    requires Apply(s, e, style) == Some(s') && c in s.calls && Stepper(e) != Some(c)
    ensures c in s'.calls && s'.calls[c] == s.calls[c]
  {
    if e.ExecClaim? || e.ExecOpen? || e.ExecReturn? || e.ExecCommit? || e.ExecFail? || e.ExecThrow? {
      ExecBystander(s, s', e, style, c);
    } else if e.UndoRead? || e.UndoClaim? || e.UndoOpen? || e.UndoReturn? || e.UndoCommit? || e.UndoFail? {
      UndoBystander(s, s', e, style, c);
    } else {
      InnerBystander(s, s', e, style, c);
    }
  }

  lemma ExecBystander(s: State, s': State, e: Event, style: Style, c: CallId)
    requires e.ExecClaim? || e.ExecOpen? || e.ExecReturn? || e.ExecCommit? || e.ExecFail? || e.ExecThrow?
    requires Apply(s, e, style) == Some(s') && c in s.calls && e.call != c
    ensures c in s'.calls && s'.calls[c] == s.calls[c]
  {
    hide UpdateRun, CreateRun, ClaimRun, MatchRequest, UndoExpiration;
  }

  lemma UndoBystander(s: State, s': State, e: Event, style: Style, c: CallId)
    requires e.UndoRead? || e.UndoClaim? || e.UndoOpen? || e.UndoReturn? || e.UndoCommit? || e.UndoFail?
    requires Apply(s, e, style) == Some(s') && c in s.calls && e.call != c
    ensures c in s'.calls && s'.calls[c] == s.calls[c]
  {
    hide UpdateRun, AssertCanBeUndone, UndoTenantMatches;
  }

  lemma InnerBystander(s: State, s': State, e: Event, style: Style, c: CallId)
    requires !e.ExecClaim? && !e.ExecOpen? && !e.ExecReturn? && !e.ExecCommit? && !e.ExecFail? && !e.ExecThrow?
    requires !e.UndoRead? && !e.UndoClaim? && !e.UndoOpen? && !e.UndoReturn? && !e.UndoCommit? && !e.UndoFail?
    requires Apply(s, e, style) == Some(s') && c in s.calls && Stepper(e) != Some(c)
    ensures c in s'.calls && s'.calls[c] == s.calls[c]
  {
    hide SaveSnapshot, RecordEffect, RecordConflict, GuardError;
  }

  lemma ClockAdvances(s: State, s': State, e: Event, style: Style)
    requires Apply(s, e, style) == Some(s')
    ensures s.clock <= s'.clock
  {
    hide UpdateRun, CreateRun, ClaimRun, SaveSnapshot, RecordEffect, RecordConflict, MatchRequest, GuardError;
    hide UndoExpiration, AssertCanBeUndone, UndoTenantMatches;
  }

  /** While a call owns a run nobody else writes it, and a run that has ended is never written again. */
  lemma OthersLeaveRun(s: State, s': State, e: Event, style: Style, c: CallId, id: Text)
    requires Inv(s) && Apply(s, e, style) == Some(s') && c in s.calls && id in Base(s).runs
    requires (Owned(s.calls[c]) == Some(id) && Stepper(e) != Some(c))
          || Base(s).runs[id].status in {Failed, Undone, UndoFailed}
    ensures id in Base(s').runs && Base(s').runs[id] == Base(s).runs[id]
  {
    hide Inv, Apply, StoreState.Valid;
    ApplyOnlyOwners(s, e, style);
    var w := Writer(e);
    if w.Some? && w.value in s.calls && Owned(s.calls[w.value]) == Some(id) {
      OwnedStatus(s, w.value);
      Mine(s, w.value);
    }
    if Owned(s.calls[c]) == Some(id) {
      OwnedStatus(s, c);
    }
  }

  // ---------------------------------------------------------------- outcomes of a run

  function CompletedRun(b: ActionRun, data: Option<Json>, md: Option<Metadata>, at: int): ActionRun {
    b.(status := Completed, executedAt := Some(at), result := Replace(data, b.result),
       metadata := Replace(MergeMetadata(b.metadata, md), b.metadata))
  }

  function FailedRun(b: ActionRun, error: ErrorCode, at: int): ActionRun {
    b.(status := Failed, executedAt := Some(at), error := Some(error))
  }

  function UndoneRun(b: ActionRun, actor: Actor, data: Option<Json>, md: Option<Metadata>, at: int): ActionRun {
    b.(status := Undone, undoneAt := Some(at), undoneBy := Some(actor), undoResult := Replace(data, b.undoResult),
       metadata := Replace(MergeMetadata(b.metadata, md), b.metadata))
  }

  function UndoFailedRun(b: ActionRun, error: ErrorCode): ActionRun {
    b.(status := UndoFailed, error := Some(error))
  }

  ghost predicate WasCompleted(b: ActionRun, r: ActionRun, from: int) {
    exists data, md, at :: from <= at && r == CompletedRun(b, data, md, at)
  }

  ghost predicate WasFailed(b: ActionRun, r: ActionRun, error: ErrorCode, from: int) {
    exists at :: from <= at && r == FailedRun(b, error, at)
  }

  ghost predicate WasUndone(b: ActionRun, r: ActionRun, actor: Actor, from: int) {
    exists data, md, at :: from <= at && r == UndoneRun(b, actor, data, md, at)
  }

  // ---------------------------------------------------------------- execute, from its claim on

  /** Where an execute call that created run `b` has come to, against the committed run. */
  ghost predicate ExecTrace(s: State, call: Call, b: ActionRun, from: int) {
    && call.ExecCall? && b.id in Base(s).runs && from <= s.clock
    && var run := Base(s).runs[b.id];
       match call.execPc
       case Claimed(r) => r.id == b.id && run == b
       case Marked(r) => r.id == b.id && run == b
       case Handling(r) => r.id == b.id && run == b
       case Wrote(r, _, _, _) => r.id == b.id && run == b && WasCompleted(b, r, from)
       case Failing(r, _, at) => r.id == b.id && run == b && from <= at
       case Executed(r) => WasCompleted(b, r, from) && (run == r || UndoPhase(run.status))
       case ExecThrew(id, error) => id == b.id && WasFailed(b, run, error, from)
       case _ => false
  }

  lemma ExecTraceOthers(s: State, s': State, e: Event, style: Style, c: CallId, b: ActionRun, from: int)
    requires Inv(s) && Apply(s, e, style) == Some(s') && c in s.calls && Stepper(e) != Some(c)
    requires ExecTrace(s, s.calls[c], b, from)
    ensures c in s'.calls && ExecTrace(s', s'.calls[c], b, from)
  {
    hide Inv, Apply, Base, WasCompleted, WasFailed, CompletedRun;
    BystanderStays(s, s', e, style, c);
    ClockAdvances(s, s', e, style);
    if s.calls[c].execPc.Executed? {
      CompletedMovesOn(s, s', e, style, b.id);
      CompletedStatus(b, s.calls[c].execPc.run, from);
    } else {
      ThrewStatus(s, s.calls[c], b, from);
      OthersLeaveRun(s, s', e, style, c, b.id);
    }
  }

  lemma CompletedStatus(b: ActionRun, r: ActionRun, from: int)
    requires WasCompleted(b, r, from)
    ensures r.status == Completed
  {
  }

  lemma ThrewStatus(s: State, call: Call, b: ActionRun, from: int)
    requires ExecTrace(s, call, b, from) && !call.execPc.Executed?
    ensures Owned(call) == Some(b.id) || Base(s).runs[b.id].status == Failed
  {
    hide Base;
  }

  /** A completed run stays as it is or goes on to be undone. */
  lemma CompletedMovesOn(s: State, s': State, e: Event, style: Style, id: Text)
    requires Inv(s) && Apply(s, e, style) == Some(s') && id in Base(s).runs
    ensures id in Base(s').runs
    ensures Base(s).runs[id].status == Completed ==>
      Base(s').runs[id] == Base(s).runs[id] || UndoPhase(Base(s').runs[id].status)
    ensures UndoPhase(Base(s).runs[id].status) ==> UndoPhase(Base(s').runs[id].status)
  {
    hide Inv, Apply, SameIdentity;
    ApplyOnlyOwners(s, e, style);
    ApplyAdvances(s, e, style);
  }

  lemma ExecTraceOwn(s: State, s': State, e: Event, style: Style, c: CallId, b: ActionRun, from: int)
    requires Inv(s) && Apply(s, e, style) == Some(s') && c in s.calls && Stepper(e) == Some(c)
    requires ExecTrace(s, s.calls[c], b, from)
    ensures c in s'.calls && ExecTrace(s', s'.calls[c], b, from)
  {
    hide Inv, WasCompleted, WasFailed;
    ClockAdvances(s, s', e, style);
    if e.ExecReturn? {
      ExecReturnTrace(s, s', e, style, b, from);
    } else if e.ExecCommit? {
      ExecCommitTrace(s, s', c, b, from);
    } else if e.ExecFail? {
      ExecFailTrace(s, s', c, b, from);
    } else {
      ExecQuietTrace(s, s', e, style, b, from);
    }
  }

  lemma ExecQuietTrace(s: State, s': State, e: Event, style: Style, b: ActionRun, from: int)
    requires Inv(s) && Apply(s, e, style) == Some(s') && Stepper(e).Some? && e.call in s.calls
    requires !e.ExecReturn? && !e.ExecCommit? && !e.ExecFail?
    requires ExecTrace(s, s.calls[e.call], b, from)
    ensures e.call in s'.calls && ExecTrace(s', s'.calls[e.call], b, from)
  {
    hide Inv, WasCompleted, WasFailed, SaveSnapshot, RecordEffect, UpdateRun;
    if e.ExecOpen? {
      OpenKeepsId(s, s', e.call);
    }
    if e.ExecOpen? || e.ExecStart? || e.ExecSnapshot? || e.ExecEffect? || e.ExecThrow? {
      QuietExec(s, s', e, style);
    }
  }

  lemma OpenKeepsId(s: State, s': State, c: CallId)
    requires Inv(s) && DoExecOpen(s, c) == Some(s')
    ensures IsExec(s', c) && s'.calls[c].execPc.Marked?
    ensures s'.calls[c].execPc.run.id == s.calls[c].execPc.run.id
  {
    hide Inv, StoreState.Valid, ResolvedOk, DirtyOk;
    Mine(s, c);
  }

  lemma ExecReturnTrace(s: State, s': State, e: Event, style: Style, b: ActionRun, from: int)
    requires Inv(s) && e.ExecReturn? && Apply(s, e, style) == Some(s') && e.call in s.calls
    requires ExecTrace(s, s.calls[e.call], b, from)
    ensures e.call in s'.calls && ExecTrace(s', s'.calls[e.call], b, from)
    ensures WroteExec(s'.calls[e.call], CompletedRun(b, e.data, e.metadata, e.t0))
  {
    hide Inv, StoreState.Valid, ResolvedOk, DirtyOk;
    Mine(s, e.call);
    assert s'.calls[e.call].execPc.run == CompletedRun(b, e.data, e.metadata, e.t0);
  }

  lemma ExecCommitTrace(s: State, s': State, c: CallId, b: ActionRun, from: int)
    requires Inv(s) && DoExecCommit(s, c) == Some(s') && ExecTrace(s, s.calls[c], b, from)
    ensures c in s'.calls && ExecTrace(s', s'.calls[c], b, from)
  {
    hide Inv, StoreState.Valid, ResolvedOk, DirtyOk, WasCompleted;
    Mine(s, c);
  }

  lemma ExecFailTrace(s: State, s': State, c: CallId, b: ActionRun, from: int)
    requires Inv(s) && DoExecFail(s, c) == Some(s') && ExecTrace(s, s.calls[c], b, from)
    ensures c in s'.calls && ExecTrace(s', s'.calls[c], b, from)
  {
    hide Inv, StoreState.Valid, ResolvedOk, DirtyOk;
    Mine(s, c);
    assert Base(s').runs[b.id] == FailedRun(b, s.calls[c].execPc.error, s.calls[c].execPc.at);
  }

  lemma {:induction false} RunKeepsExecTrace(s: State, events: seq<Event>, style: Style, c: CallId, b: ActionRun, from: int)
    requires Inv(s) && Run(s, events, style).Some? && c in s.calls && ExecTrace(s, s.calls[c], b, from)
    ensures var s' := Run(s, events, style).value; c in s'.calls && ExecTrace(s', s'.calls[c], b, from)
    decreases |events|
  {
    hide Inv, Apply, ExecTrace;
    if events != [] {
      var next := Apply(s, events[0], style).value;
      ApplyKeepsInv(s, events[0], style);
      if Stepper(events[0]) == Some(c) {
        ExecTraceOwn(s, next, events[0], style, c, b, from);
      } else {
        ExecTraceOthers(s, next, events[0], style, c, b, from);
      }
      RunKeepsExecTrace(next, events[1..], style, c, b, from);
    }
  }

  /**
   How an execute call that created a run ends, in every schedule: if it returns, what it returns is
   the created run completed at some later time with the handler's answer, and that is the committed
   run until an undo claims it; if it throws, the committed run is for ever the created one marked
   failed, at some later time and with the thrown error.
   */
  lemma ExecuteEnds(s: State, c: CallId, t0: int, t1: int, s1: State, events: seq<Event>, s2: State, style: Style)
    requires Reachable(s, style) && Apply(s, ExecClaim(c, t0, t1), style) == Some(s1)
    requires IsExec(s1, c) && s1.calls[c].execPc.Claimed? && Run(s1, events, style) == Some(s2)
    ensures IsExec(s2, c)
    ensures var b, pc := s1.calls[c].execPc.run, s2.calls[c].execPc;
      && b.id in Base(s2).runs
      && (pc.Executed? ==>
            && WasCompleted(b, pc.run, t1)
            && (Base(s2).runs[b.id] == pc.run || UndoPhase(Base(s2).runs[b.id].status)))
      && (pc.ExecThrew? ==> pc.runId == b.id && WasFailed(b, Base(s2).runs[b.id], pc.error, t1))
      && (!pc.Executed? && !pc.ExecThrew? ==> Base(s2).runs[b.id] == b)
  {
    hide Inv, Reachable, Run, WasCompleted, WasFailed;
    ReachableInv(s, style);
    ApplyKeepsInv(s, ExecClaim(c, t0, t1), style);
    ClaimTrace(s, s1, c, t0, t1, style);
    RunKeepsExecTrace(s1, events, style, c, s1.calls[c].execPc.run, t1);
  }

  lemma ClaimTrace(s: State, s1: State, c: CallId, t0: int, t1: int, style: Style)
    requires Inv(s1) && DoExecClaim(s, c, t0, t1, style) == Some(s1)
    requires IsExec(s1, c) && s1.calls[c].execPc.Claimed?
    ensures ExecTrace(s1, s1.calls[c], s1.calls[c].execPc.run, t1)
  {
    hide Inv, StoreState.Valid, MatchRequest, FindScope, KeyFits, CreateRun, WasCompleted, WasFailed, ResolvedOk, DirtyOk;
    Mine(s1, c);
  }

  /** The execute call has written this run, and may have committed it. */
  predicate WroteExec(call: Call, r: ActionRun) {
    call.ExecCall? && (call.execPc.Wrote? || call.execPc.Executed?) && call.execPc.run == r
  }

  lemma StepKeepsWroteExec(s: State, s': State, e: Event, style: Style, c: CallId, r: ActionRun)
    requires Apply(s, e, style) == Some(s') && c in s.calls && WroteExec(s.calls[c], r)
    ensures c in s'.calls && WroteExec(s'.calls[c], r)
  {
    if Stepper(e) != Some(c) {
      BystanderStays(s, s', e, style, c);
    }
  }

  lemma {:induction false} RunKeepsWroteExec(s: State, events: seq<Event>, style: Style, c: CallId, r: ActionRun)
    requires Run(s, events, style).Some? && c in s.calls && WroteExec(s.calls[c], r)
    ensures var s' := Run(s, events, style).value; c in s'.calls && WroteExec(s'.calls[c], r)
    decreases |events|
  {
    hide Apply, WroteExec;
    if events != [] {
      StepKeepsWroteExec(s, Apply(s, events[0], style).value, events[0], style, c, r);
      RunKeepsWroteExec(Apply(s, events[0], style).value, events[1..], style, c, r);
    }
  }

  /**
   What an execute handler returns is what its run gets: once the handler has returned, in every
   schedule the call can only return the created run, completed at that time with that answer and
   that metadata merged in, and then it is the committed run until an undo claims it.
   */
  lemma ExecuteReturns(s: State, c: CallId, data: Option<Json>, md: Option<Metadata>, t: int, s1: State,
                       events: seq<Event>, s2: State, style: Style)
    requires Reachable(s, style) && IsExec(s, c) && s.calls[c].execPc.Handling?
    requires Apply(s, ExecReturn(c, data, md, t), style) == Some(s1) && Run(s1, events, style) == Some(s2)
    ensures var id := s.calls[c].execPc.run.id;
      && id in Base(s).runs && id in Base(s2).runs && c in s2.calls
      && var r := CompletedRun(Base(s).runs[id], data, md, t);
         && WroteExec(s2.calls[c], r)
         && (s2.calls[c].execPc.Executed? ==>
               Base(s2).runs[id] == r || UndoPhase(Base(s2).runs[id].status))
  {
    hide Inv, Reachable, Run, WroteExec, WasCompleted, WasFailed, CompletedRun;
    ReachableInv(s, style);
    HandlingTrace(s, c);
    var b := Base(s).runs[s.calls[c].execPc.run.id];
    ApplyKeepsInv(s, ExecReturn(c, data, md, t), style);
    ExecReturnTrace(s, s1, ExecReturn(c, data, md, t), style, b, s.clock);
    RunKeepsExecTrace(s1, events, style, c, b, s.clock);
    RunKeepsWroteExec(s1, events, style, c, CompletedRun(b, data, md, t));
    WroteIsRun(s2.calls[c], CompletedRun(b, data, md, t));
  }

  lemma WroteIsRun(call: Call, r: ActionRun)
    requires WroteExec(call, r)
    ensures call.ExecCall? && (call.execPc.Wrote? || call.execPc.Executed?) && call.execPc.run == r
  {
  }

  lemma HandlingTrace(s: State, c: CallId)
    requires Inv(s) && IsExec(s, c) && s.calls[c].execPc.Handling?
    ensures var id := s.calls[c].execPc.run.id;
      && id in Base(s).runs && Base(s).runs[id].id == id
      && ExecTrace(s, s.calls[c], Base(s).runs[id], s.clock)
  {
    hide Inv, StoreState.Valid, ResolvedOk, DirtyOk, WasCompleted, WasFailed;
    Mine(s, c);
  }

  // ---------------------------------------------------------------- undo, from its claim on

  /** Where an undo call that claimed run `b` has come to, against the committed run. */
  ghost predicate UndoTrace(s: State, call: Call, b: ActionRun, actor: Actor, from: int) {
    && call.UndoCall? && call.undo.actor == actor && b.id in Base(s).runs && from <= s.clock
    && var run := Base(s).runs[b.id];
       match call.undoPc
       case UndoClaimed(r) => r == b && run == b
       case UndoOpened(r) => r == b && run == b
       case Guarded(r, _) => r == b && run == b
       case Undoing(r, _) => r == b && run == b
       case UndoWrote(r, _, _, _) => r.id == b.id && run == b && WasUndone(b, r, actor, from)
       case UndoFailing(r, _, _) => r == b && run == b
       case UndoReturned(r) => run == r && WasUndone(b, r, actor, from)
       case Flushing(id, error, _) => id == b.id && run == UndoFailedRun(b, error)
       case UndoThrew(error) => run == UndoFailedRun(b, error)
       case _ => false
  }

  lemma UndoTraceOthers(s: State, s': State, e: Event, style: Style, c: CallId, b: ActionRun, actor: Actor, from: int)
    requires Inv(s) && Apply(s, e, style) == Some(s') && c in s.calls && Stepper(e) != Some(c)
    requires UndoTrace(s, s.calls[c], b, actor, from)
    ensures c in s'.calls && UndoTrace(s', s'.calls[c], b, actor, from)
  {
    hide Inv, Apply, Base, WasUndone, UndoFailedRun;
    BystanderStays(s, s', e, style, c);
    ClockAdvances(s, s', e, style);
    UndoEndStatus(s, s.calls[c], b, actor, from);
    OthersLeaveRun(s, s', e, style, c, b.id);
  }

  lemma UndoEndStatus(s: State, call: Call, b: ActionRun, actor: Actor, from: int)
    requires UndoTrace(s, call, b, actor, from)
    ensures Owned(call) == Some(b.id) || Base(s).runs[b.id].status in {Undone, UndoFailed}
  {
    hide Base;
  }

  lemma UndoTraceOwn(s: State, s': State, e: Event, style: Style, c: CallId, b: ActionRun, actor: Actor, from: int)
    requires Inv(s) && Apply(s, e, style) == Some(s') && c in s.calls && Stepper(e) == Some(c)
    requires UndoTrace(s, s.calls[c], b, actor, from)
    ensures c in s'.calls && UndoTrace(s', s'.calls[c], b, actor, from)
  {
    hide Inv, WasUndone;
    ClockAdvances(s, s', e, style);
    if e.UndoReturn? {
      UndoReturnTrace(s, s', e, style, b, actor, from);
    } else if e.UndoCommit? {
      UndoCommitTrace(s, s', c, b, actor, from);
    } else if e.UndoFail? {
      UndoFailTrace(s, s', c, b, actor, from);
    } else {
      UndoQuietTrace(s, s', e, style, b, actor, from);
    }
  }

  lemma UndoQuietTrace(s: State, s': State, e: Event, style: Style, b: ActionRun, actor: Actor, from: int)
    requires Inv(s) && Apply(s, e, style) == Some(s') && Stepper(e).Some? && e.call in s.calls
    requires !e.UndoReturn? && !e.UndoCommit? && !e.UndoFail?
    requires UndoTrace(s, s.calls[e.call], b, actor, from)
    ensures e.call in s'.calls && UndoTrace(s', s'.calls[e.call], b, actor, from)
  {
    hide Inv, WasUndone, GuardError, UndoFailedRun;
    if e.UndoOpen? || e.UndoGuard? || e.UndoRecord? || e.UndoStart? || e.UndoThrow? {
      QuietUndo(s, s', e, style);
    } else if e.UndoFlush? {
      QuietOutside(s, s', e, style);
    }
  }

  lemma UndoReturnTrace(s: State, s': State, e: Event, style: Style, b: ActionRun, actor: Actor, from: int)
    requires Inv(s) && e.UndoReturn? && Apply(s, e, style) == Some(s') && e.call in s.calls
    requires UndoTrace(s, s.calls[e.call], b, actor, from)
    ensures e.call in s'.calls && UndoTrace(s', s'.calls[e.call], b, actor, from)
    ensures WroteUndo(s'.calls[e.call], UndoneRun(b, actor, e.data, e.metadata, e.t0))
  {
    hide Inv, StoreState.Valid, ResolvedOk, DirtyOk, Unblocked;
    Mine(s, e.call);
    assert s'.calls[e.call].undoPc.run == UndoneRun(b, actor, e.data, e.metadata, e.t0);
  }

  lemma UndoCommitTrace(s: State, s': State, c: CallId, b: ActionRun, actor: Actor, from: int)
    requires Inv(s) && DoUndoCommit(s, c) == Some(s') && UndoTrace(s, s.calls[c], b, actor, from)
    ensures c in s'.calls && UndoTrace(s', s'.calls[c], b, actor, from)
  {
    hide Inv, StoreState.Valid, ResolvedOk, DirtyOk, WasUndone, Unblocked;
    Mine(s, c);
  }

  lemma UndoFailTrace(s: State, s': State, c: CallId, b: ActionRun, actor: Actor, from: int)
    requires Inv(s) && DoUndoFail(s, c) == Some(s') && UndoTrace(s, s.calls[c], b, actor, from)
    ensures c in s'.calls && UndoTrace(s', s'.calls[c], b, actor, from)
  {
    hide Inv, StoreState.Valid, ResolvedOk, DirtyOk, WasUndone;
    Mine(s, c);
  }

  lemma {:induction false} RunKeepsUndoTrace(s: State, events: seq<Event>, style: Style, c: CallId, b: ActionRun,
                                            actor: Actor, from: int)
    requires Inv(s) && Run(s, events, style).Some? && c in s.calls && UndoTrace(s, s.calls[c], b, actor, from)
    ensures var s' := Run(s, events, style).value; c in s'.calls && UndoTrace(s', s'.calls[c], b, actor, from)
    decreases |events|
  {
    hide Inv, Apply, UndoTrace;
    if events != [] {
      var next := Apply(s, events[0], style).value;
      ApplyKeepsInv(s, events[0], style);
      if Stepper(events[0]) == Some(c) {
        UndoTraceOwn(s, next, events[0], style, c, b, actor, from);
      } else {
        UndoTraceOthers(s, next, events[0], style, c, b, actor, from);
      }
      RunKeepsUndoTrace(next, events[1..], style, c, b, actor, from);
    }
  }

  /**
   How an undo call that claimed a run ends, in every schedule: if it returns, the committed run is
   for ever the claimed one, undone at some later time by the asking actor with the handler's answer;
   if it throws, for ever the claimed one marked undo_failed with the thrown error.
   */
  lemma UndoEnds(s: State, c: CallId, t0: int, t1: int, s1: State, events: seq<Event>, s2: State, style: Style)
    requires Reachable(s, style) && Apply(s, UndoClaim(c, t0, t1), style) == Some(s1)
    requires IsUndo(s1, c) && s1.calls[c].undoPc.UndoClaimed? && Run(s1, events, style) == Some(s2)
    ensures IsUndo(s2, c)
    ensures var b, pc, actor := s1.calls[c].undoPc.run, s2.calls[c].undoPc, s1.calls[c].undo.actor;
      && b.id in Base(s2).runs
      && (pc.UndoReturned? ==> Base(s2).runs[b.id] == pc.run && WasUndone(b, pc.run, actor, t1))
      && (pc.UndoThrew? ==> Base(s2).runs[b.id] == UndoFailedRun(b, pc.error))
  {
    hide Inv, Reachable, Run, WasUndone;
    ReachableInv(s, style);
    ApplyKeepsInv(s, UndoClaim(c, t0, t1), style);
    UndoClaimTrace(s, s1, c, t0, t1);
    RunKeepsUndoTrace(s1, events, style, c, s1.calls[c].undoPc.run, s1.calls[c].undo.actor, t1);
  }

  /** The stored start of an undo lies before the expiry of its run. */
  predicate StartedInWindow(run: ActionRun) {
    run.undoStartedAt.Some? && (run.undoExpiresAt.Some? ==> run.undoStartedAt.value < run.undoExpiresAt.value)
  }

  /**
   Every claimed undo passed the check by the first reading of the clock and is stored, for ever,
   with the second: its start lies within the window exactly when the second reading does.
   */
  lemma StartIsSecondReading(s: State, c: CallId, t0: int, t1: int, s1: State, events: seq<Event>, s2: State,
                             style: Style)
    requires Reachable(s, style) && Apply(s, UndoClaim(c, t0, t1), style) == Some(s1)
    requires IsUndo(s1, c) && s1.calls[c].undoPc.UndoClaimed? && Run(s1, events, style) == Some(s2)
    ensures var id := s.calls[c].undo.runId;
      && id in s.store.runs && id in Base(s2).runs
      && var expiry, run := s.store.runs[id].undoExpiresAt, Base(s2).runs[id];
         && t0 <= t1 && (expiry.Some? ==> t0 < expiry.value)
         && run.undoStartedAt == Some(t1) && run.undoExpiresAt == expiry
         && (StartedInWindow(run) <==> expiry.None? || t1 < expiry.value)
  {
    hide Inv, Reachable, Run;
    ReachableInv(s, style);
    ApplyKeepsInv(s, UndoClaim(c, t0, t1), style);
    UndoClaimTrace(s, s1, c, t0, t1);
    Committed(s, s.calls[c].undo.runId);
    hide Apply;
    var b, actor := s1.calls[c].undoPc.run, s1.calls[c].undo.actor;
    RunKeepsUndoTrace(s1, events, style, c, b, actor, t1);
    TraceKeepsStart(s2, s2.calls[c], b, actor, t1);
  }

  lemma TraceKeepsStart(s: State, call: Call, b: ActionRun, actor: Actor, from: int)
    requires UndoTrace(s, call, b, actor, from)
    ensures Base(s).runs[b.id].undoStartedAt == b.undoStartedAt && Base(s).runs[b.id].undoExpiresAt == b.undoExpiresAt
  {
    hide Base;
  }

  lemma UndoClaimTrace(s: State, s1: State, c: CallId, t0: int, t1: int)
    requires Inv(s1) && DoUndoClaim(s, c, t0, t1) == Some(s1)
    requires IsUndo(s1, c) && s1.calls[c].undoPc.UndoClaimed?
    ensures UndoTrace(s1, s1.calls[c], s1.calls[c].undoPc.run, s1.calls[c].undo.actor, t1)
  {
    hide Inv, StoreState.Valid, AssertCanBeUndone, WasUndone, ResolvedOk, DirtyOk, Unblocked;
    Mine(s1, c);
  }

  /** The undo call has written this run, and may have committed it. */
  predicate WroteUndo(call: Call, r: ActionRun) {
    call.UndoCall? && (call.undoPc.UndoWrote? || call.undoPc.UndoReturned?) && call.undoPc.run == r
  }

  lemma StepKeepsWroteUndo(s: State, s': State, e: Event, style: Style, c: CallId, r: ActionRun)
    requires Apply(s, e, style) == Some(s') && c in s.calls && WroteUndo(s.calls[c], r)
    ensures c in s'.calls && WroteUndo(s'.calls[c], r)
  {
    if Stepper(e) != Some(c) {
      BystanderStays(s, s', e, style, c);
    }
  }

  lemma {:induction false} RunKeepsWroteUndo(s: State, events: seq<Event>, style: Style, c: CallId, r: ActionRun)
    requires Run(s, events, style).Some? && c in s.calls && WroteUndo(s.calls[c], r)
    ensures var s' := Run(s, events, style).value; c in s'.calls && WroteUndo(s'.calls[c], r)
    decreases |events|
  {
    hide Apply, WroteUndo;
    if events != [] {
      StepKeepsWroteUndo(s, Apply(s, events[0], style).value, events[0], style, c, r);
      RunKeepsWroteUndo(Apply(s, events[0], style).value, events[1..], style, c, r);
    }
  }

  /**
   What an undo handler returns is what its run gets: once the handler has returned, in every schedule
   the call can only return the claimed run, undone at that time by the asking actor with that answer,
   and then it is the committed run for ever.
   */
  lemma UndoReturns(s: State, c: CallId, data: Option<Json>, md: Option<Metadata>, t: int, s1: State,
                    events: seq<Event>, s2: State, style: Style)
    requires Reachable(s, style) && IsUndo(s, c) && s.calls[c].undoPc.Undoing?
    requires Apply(s, UndoReturn(c, data, md, t), style) == Some(s1) && Run(s1, events, style) == Some(s2)
    ensures var run := s.calls[c].undoPc.run;
      && run.id in Base(s2).runs && c in s2.calls
      && var r := UndoneRun(run, s.calls[c].undo.actor, data, md, t);
         && WroteUndo(s2.calls[c], r)
         && (s2.calls[c].undoPc.UndoReturned? ==> Base(s2).runs[run.id] == r)
  {
    hide Inv, Reachable, Run, WroteUndo, WasUndone, UndoneRun;
    ReachableInv(s, style);
    UndoingTrace(s, c);
    var run, actor := s.calls[c].undoPc.run, s.calls[c].undo.actor;
    ApplyKeepsInv(s, UndoReturn(c, data, md, t), style);
    UndoReturnTrace(s, s1, UndoReturn(c, data, md, t), style, run, actor, s.clock);
    RunKeepsUndoTrace(s1, events, style, c, run, actor, s.clock);
    RunKeepsWroteUndo(s1, events, style, c, UndoneRun(run, actor, data, md, t));
    WroteIsUndone(s2.calls[c], UndoneRun(run, actor, data, md, t));
  }

  lemma WroteIsUndone(call: Call, r: ActionRun)
    requires WroteUndo(call, r)
    ensures call.UndoCall? && (call.undoPc.UndoWrote? || call.undoPc.UndoReturned?) && call.undoPc.run == r
  {
  }

  lemma UndoingTrace(s: State, c: CallId)
    requires Inv(s) && IsUndo(s, c) && s.calls[c].undoPc.Undoing?
    ensures UndoTrace(s, s.calls[c], s.calls[c].undoPc.run, s.calls[c].undo.actor, s.clock)
  {
    hide Inv, StoreState.Valid, ResolvedOk, DirtyOk, WasUndone, Unblocked;
    Mine(s, c);
  }

  // ---------------------------------------------------------------- conflicts of a failed undo

  /** The records occur in the list in order, possibly with others in between. */
  ghost predicate InOrder(records: seq<ConflictBody>, list: seq<ConflictBody>)
    decreases |list|
  {
    || records == []
    || (&& list != []
        && var n, m := |records| - 1, |list| - 1;
           (records[n] == list[m] && InOrder(records[..n], list[..m])) || InOrder(records, list[..m]))
  }

  lemma {:induction false} InOrderLonger(records: seq<ConflictBody>, list: seq<ConflictBody>, longer: seq<ConflictBody>)
    requires InOrder(records, list) && list <= longer
    ensures InOrder(records, longer)
    decreases |longer|
  {
    if |list| < |longer| {
      InOrderLonger(records, list, longer[..|longer| - 1]);
    } else {
      assert list == longer;
    }
  }

  lemma InOrderNext(records: seq<ConflictBody>, k: nat, list: seq<ConflictBody>)
    requires k < |records| && InOrder(records[..k], list)
    ensures InOrder(records[..k + 1], list + [records[k]])
  {
    assert records[..k + 1][..k] == records[..k];
    assert (list + [records[k]])[..|list|] == list;
  }

  /** The committed conflicts of a run. */
  function Stored(s: State, id: Text): seq<Child<ConflictBody>> {
    ChildrenOf(Base(s).conflicts, id)
  }

  /** What was stored for the run after the first `from` conflicts. */
  function StoredSince(s: State, id: Text, from: nat): seq<ConflictBody>
    requires from <= |Stored(s, id)|
  {
    Bodies(Stored(s, id)[from..])
  }

  /** Committed conflicts are never changed or removed, only added to. */
  lemma ConflictsOnlyGrow(s: State, s': State, e: Event, style: Style, id: Text)
    requires Inv(s) && Apply(s, e, style) == Some(s')
    ensures Stored(s, id) <= Stored(s', id)
  {
    hide Inv;
    if e.UndoFlush? || e.OutsideConflict? || e.OutsideEffect? || e.BeginExec? || e.BeginUndo? {
      OutsideGrows(s, s', e, style, id);
    } else if e.ExecCommit? || e.UndoCommit? {
      CommitKeepsConflicts(s, s', e, style);
    } else if e.ExecClaim? {
      ClaimKeepsConflicts(s, s', e, style);
    } else if e.ExecFail? || e.UndoClaim? || e.UndoFail? {
      FreeKeepsConflicts(s, s', e, style);
    } else {
      InsideKeepsConflicts(s, s', e, style);
    }
  }

  lemma OutsideGrows(s: State, s': State, e: Event, style: Style, id: Text)
    requires Apply(s, e, style) == Some(s')
    requires e.UndoFlush? || e.OutsideConflict? || e.OutsideEffect? || e.BeginExec? || e.BeginUndo?
    ensures Stored(s, id) <= Stored(s', id)
  {
  }

  lemma CommitKeepsConflicts(s: State, s': State, e: Event, style: Style)
    requires Inv(s) && (e.ExecCommit? || e.UndoCommit?) && Apply(s, e, style) == Some(s')
    ensures Base(s').conflicts == Base(s).conflicts
  {
    hide Inv, StoreState.Valid;
    Facts(s);
  }

  lemma ClaimKeepsConflicts(s: State, s': State, e: Event, style: Style)
    requires Inv(s) && e.ExecClaim? && Apply(s, e, style) == Some(s')
    ensures Base(s').conflicts == Base(s).conflicts
  {
    hide Inv, DoExecClaim;
    ClaimWritesOne(s, s', e.call, e.t0, e.t1, style);
  }

  lemma FreeKeepsConflicts(s: State, s': State, e: Event, style: Style)
    requires (e.ExecFail? || e.UndoClaim? || e.UndoFail?) && Apply(s, e, style) == Some(s')
    ensures Base(s').conflicts == Base(s).conflicts
  {
    hide AssertCanBeUndone, Merge;
  }

  lemma InsideKeepsConflicts(s: State, s': State, e: Event, style: Style)
    requires Apply(s, e, style) == Some(s') && Quiet(e)
    requires !e.UndoFlush? && !e.OutsideConflict? && !e.OutsideEffect? && !e.BeginExec? && !e.BeginUndo?
    ensures Base(s').conflicts == Base(s).conflicts
  {
    hide UpdateRun, SaveSnapshot, RecordEffect, GuardError, UndoTenantMatches;
  }

  /** How much of a failing undo's deferred conflicts has been stored. */
  ghost predicate FlushTrace(s: State, call: Call, id: Text, error: ErrorCode, records: seq<ConflictBody>,
                             before: seq<Child<ConflictBody>>) {
    && call.UndoCall? && before <= Stored(s, id)
    && match call.undoPc
       case UndoFailing(r, err, recs) => r.id == id && err == error && recs == records
       case Flushing(i, err, rest) =>
         && i == id && err == error && |rest| <= |records| && rest == records[|records| - |rest|..]
         && InOrder(records[..|records| - |rest|], StoredSince(s, id, |before|))
       case UndoThrew(err) => err == error && InOrder(records, StoredSince(s, id, |before|))
       case _ => false
  }

  lemma MoreStored(s: State, s': State, id: Text, from: nat, records: seq<ConflictBody>)
    requires from <= |Stored(s, id)| && Stored(s, id) <= Stored(s', id)
    requires InOrder(records, StoredSince(s, id, from))
    ensures InOrder(records, StoredSince(s', id, from))
  {
    hide Stored;
    InOrderLonger(records, StoredSince(s, id, from), StoredSince(s', id, from));
  }

  lemma FlushTraceOthers(s: State, s': State, e: Event, style: Style, c: CallId, id: Text, error: ErrorCode,
                         records: seq<ConflictBody>, before: seq<Child<ConflictBody>>)
    requires Inv(s) && Apply(s, e, style) == Some(s') && c in s.calls && Stepper(e) != Some(c)
    requires FlushTrace(s, s.calls[c], id, error, records, before)
    ensures c in s'.calls && FlushTrace(s', s'.calls[c], id, error, records, before)
  {
    hide Inv, Apply, Stored, StoredSince, InOrder;
    BystanderStays(s, s', e, style, c);
    ConflictsOnlyGrow(s, s', e, style, id);
    var pc := s.calls[c].undoPc;
    if pc.Flushing? {
      MoreStored(s, s', id, |before|, records[..|records| - |pc.records|]);
    } else if pc.UndoThrew? {
      MoreStored(s, s', id, |before|, records);
    }
  }

  lemma FlushTraceOwn(s: State, s': State, e: Event, style: Style, c: CallId, id: Text, error: ErrorCode,
                      records: seq<ConflictBody>, before: seq<Child<ConflictBody>>)
    requires Inv(s) && Apply(s, e, style) == Some(s') && c in s.calls && Stepper(e) == Some(c)
    requires FlushTrace(s, s.calls[c], id, error, records, before)
    ensures c in s'.calls && FlushTrace(s', s'.calls[c], id, error, records, before)
  {
    hide Inv, Stored, StoredSince, InOrder;
    ConflictsOnlyGrow(s, s', e, style, id);
    if e.UndoFail? {
      NothingFlushed(s', id, |before|, records);
    } else if e.UndoFlush? {
      FlushStep(s, s', c, e.t0, id, error, records, before);
    }
  }

  lemma NothingFlushed(s: State, id: Text, from: nat, records: seq<ConflictBody>)
    requires from <= |Stored(s, id)|
    ensures records[|records| - |records|..] == records && InOrder(records[..0], StoredSince(s, id, from))
  {
  }

  lemma FlushStep(s: State, s': State, c: CallId, t: int, id: Text, error: ErrorCode,
                  records: seq<ConflictBody>, before: seq<Child<ConflictBody>>)
    requires DoUndoFlush(s, c, t) == Some(s') && before <= Stored(s', id)
    requires FlushTrace(s, s.calls[c], id, error, records, before)
    ensures c in s'.calls && FlushTrace(s', s'.calls[c], id, error, records, before)
  {
    hide InOrder, Stored, StoredSince, RecordConflict;
    var rest := s.calls[c].undoPc.records;
    var k := |records| - |rest|;
    if rest == [] {
      assert records[..k] == records;
      SameStored(s, s', id, |before|);
    } else {
      assert rest[0] == records[k] && rest[1..] == records[k + 1..];
      OneMoreStored(s, s', c, t, id, |before|);
      InOrderNext(records, k, StoredSince(s, id, |before|));
    }
  }

  lemma SameStored(s: State, s': State, id: Text, from: nat)
    requires Base(s').conflicts == Base(s).conflicts && from <= |Stored(s, id)|
    ensures Stored(s', id) == Stored(s, id) && StoredSince(s', id, from) == StoredSince(s, id, from)
  {
  }

  lemma OneMoreStored(s: State, s': State, c: CallId, t: int, id: Text, from: nat)
    requires DoUndoFlush(s, c, t) == Some(s') && s.calls[c].undoPc.runId == id && s.calls[c].undoPc.records != []
    requires from <= |Stored(s, id)|
    ensures from <= |Stored(s', id)|
    ensures StoredSince(s', id, from) == StoredSince(s, id, from) + [s.calls[c].undoPc.records[0]]
  {
    var child := RecordConflict(s.store, id, s.calls[c].undoPc.records[0], t).value.1;
    assert Stored(s', id) == Stored(s, id) + [child];
    assert Stored(s', id)[from..] == Stored(s, id)[from..] + [child];
  }

  lemma {:induction false} RunKeepsFlushTrace(s: State, events: seq<Event>, style: Style, c: CallId, id: Text,
                                             error: ErrorCode, records: seq<ConflictBody>,
                                             before: seq<Child<ConflictBody>>)
    requires Inv(s) && Run(s, events, style).Some? && c in s.calls
    requires FlushTrace(s, s.calls[c], id, error, records, before)
    ensures var s' := Run(s, events, style).value;
      c in s'.calls && FlushTrace(s', s'.calls[c], id, error, records, before)
    decreases |events|
  {
    hide Inv, Apply, FlushTrace;
    if events != [] {
      var next := Apply(s, events[0], style).value;
      ApplyKeepsInv(s, events[0], style);
      if Stepper(events[0]) == Some(c) {
        FlushTraceOwn(s, next, events[0], style, c, id, error, records, before);
      } else {
        FlushTraceOthers(s, next, events[0], style, c, id, error, records, before);
      }
      RunKeepsFlushTrace(next, events[1..], style, c, id, error, records, before);
    }
  }

  /**
   How a failing undo ends, whichever abort it comes from and whatever the other calls do before it
   is done: it throws the error of the abort, the committed run is for ever the claimed one marked
   undo_failed with that error, the conflicts stored at the abort are still the first ones, and after
   them every recorded conflict is stored, in the order it was recorded.
   */
  lemma FailingUndoEnds(s: State, c: CallId, events: seq<Event>, s2: State, style: Style)
    requires Reachable(s, style) && IsUndo(s, c) && s.calls[c].undoPc.UndoFailing?
    requires Run(s, events, style) == Some(s2) && IsUndo(s2, c) && s2.calls[c].undoPc.UndoThrew?
    ensures var pc := s.calls[c].undoPc;
      && s2.calls[c].undoPc.error == pc.error
      && pc.run.id in Base(s2).runs && Base(s2).runs[pc.run.id] == UndoFailedRun(pc.run, pc.error)
      && Stored(s, pc.run.id) <= Stored(s2, pc.run.id)
      && InOrder(pc.records, StoredSince(s2, pc.run.id, |Stored(s, pc.run.id)|))
  {
    hide Inv, Reachable, Run, InOrder, StoreState.Valid;
    ReachableInv(s, style);
    var pc := s.calls[c].undoPc;
    var id := pc.run.id;
    FailingTrace(s, c);
    RunKeepsUndoTrace(s, events, style, c, pc.run, s.calls[c].undo.actor, s.clock);
    RunKeepsFlushTrace(s, events, style, c, id, pc.error, pc.records, Stored(s, id));
  }

  lemma FailingTrace(s: State, c: CallId)
    requires Inv(s) && IsUndo(s, c) && s.calls[c].undoPc.UndoFailing?
    ensures UndoTrace(s, s.calls[c], s.calls[c].undoPc.run, s.calls[c].undo.actor, s.clock)
  {
    hide Inv, StoreState.Valid, ResolvedOk, DirtyOk, WasUndone;
    Mine(s, c);
  }

  // ---------------------------------------------------------------- snapshots of a failed run

  /** A run that has not completed has no committed snapshot. */
  ghost predicate OnlyCompletedSnapshots(s: State) {
    forall id | id in Base(s).runs && Base(s).runs[id].status in {Created, Failed} ::
      ChildrenOf(Base(s).snapshots, id) == []
  }

  lemma ApplyKeepsSnapshots(s: State, e: Event, style: Style)
    requires Inv(s) && OnlyCompletedSnapshots(s) && Apply(s, e, style).Some?
    ensures OnlyCompletedSnapshots(Apply(s, e, style).value)
  {
    hide Inv;
    var s' := Apply(s, e, style).value;
    ApplyAdvances(s, e, style);
    if e.ExecCommit? || e.UndoCommit? {
      CommitSnapshots(s, s', e, style);
    } else if e.ExecClaim? {
      ClaimSnapshots(s, s', e, style);
    } else {
      OtherSnapshots(s, s', e, style);
    }
  }

  lemma CommitSnapshots(s: State, s': State, e: Event, style: Style)
    requires Inv(s) && OnlyCompletedSnapshots(s) && Advances(s, s')
    requires (e.ExecCommit? || e.UndoCommit?) && Apply(s, e, style) == Some(s')
    ensures OnlyCompletedSnapshots(s')
  {
    hide Inv, StoreState.Valid, SameIdentity, CallOk, ResolvedOk, Advances, OnlyCompletedSnapshots;
    Facts(s);
    Mine(s, e.call);
    CommitStatus(s, e.call);
    OwnSnapshots(s, s', Owned(s.calls[e.call]).value);
  }

  lemma OwnSnapshots(s: State, s': State, own: Text)
    requires OnlyCompletedSnapshots(s) && Advances(s, s') && Base(s').runs.Keys == Base(s).runs.Keys
    requires own in Base(s').runs && Base(s').runs[own].status in {Completed, Undone}
    requires forall id | id in Base(s).runs && id != own ::
      ChildrenOf(Base(s').snapshots, id) == ChildrenOf(Base(s).snapshots, id)
    ensures OnlyCompletedSnapshots(s')
  {
    hide SameIdentity, Base;
    forall id | id in Base(s').runs && Base(s').runs[id].status in {Created, Failed}
      ensures ChildrenOf(Base(s').snapshots, id) == []
    {
      assert id in Base(s).runs.Keys;
    }
  }

  lemma ClaimSnapshots(s: State, s': State, e: Event, style: Style)
    requires Inv(s) && OnlyCompletedSnapshots(s) && e.ExecClaim? && Apply(s, e, style) == Some(s')
    ensures OnlyCompletedSnapshots(s')
  {
    hide Inv, StoreState.Valid, DoExecClaim, OnlyCompletedSnapshots;
    Facts(s);
    NoStrayChildren(s.store);
    ClaimWritesOne(s, s', e.call, e.t0, e.t1, style);
    if s'.calls[e.call].execPc.Claimed? {
      NewRunSnapshots(s, s', s'.calls[e.call].execPc.run);
    } else {
      SameStoreSnapshots(s, s');
    }
  }

  lemma NewRunSnapshots(s: State, s': State, run: ActionRun)
    requires OnlyCompletedSnapshots(s) && ChildrenOf(Base(s).snapshots, run.id) == []
    requires Base(s').runs == Base(s).runs[run.id := run] && Base(s').snapshots == Base(s).snapshots
    ensures OnlyCompletedSnapshots(s')
  {
    hide Base;
  }

  lemma SameStoreSnapshots(s: State, s': State)
    requires OnlyCompletedSnapshots(s) && Base(s').runs == Base(s).runs && Base(s').snapshots == Base(s).snapshots
    ensures OnlyCompletedSnapshots(s')
  {
    hide Base;
  }

  lemma NoStrayChildren(st: Store)
    requires StoreState.Valid(st)
    ensures forall id | id !in st.runs :: ChildrenOf(st.snapshots, id) == []
  {
  }

  lemma OtherSnapshots(s: State, s': State, e: Event, style: Style)
    requires Inv(s) && OnlyCompletedSnapshots(s) && Advances(s, s') && Apply(s, e, style) == Some(s')
    requires !e.ExecCommit? && !e.UndoCommit? && !e.ExecClaim?
    ensures OnlyCompletedSnapshots(s')
  {
    hide Inv, Advances, OnlyCompletedSnapshots;
    SameSnapshots(s, s', e, style);
    SameKeys(s, s', e, style);
    NotBackToCreated(s, s');
  }

  lemma SameSnapshots(s: State, s': State, e: Event, style: Style)
    requires Inv(s) && Apply(s, e, style) == Some(s') && !e.ExecCommit? && !e.UndoCommit? && !e.ExecClaim?
    ensures Base(s').snapshots == Base(s).snapshots
  {
    hide Inv;
    if Quiet(e) {
      QuietAdvances(s, s', e, style);
    } else {
      UpdatesOneRun(s, s', e, style);
    }
  }

  /** The writes outside a transaction update one stored run and nothing else. */
  lemma UpdatesOneRun(s: State, s': State, e: Event, style: Style)
    requires Apply(s, e, style) == Some(s') && (e.ExecFail? || e.UndoClaim? || e.UndoFail?)
    ensures Base(s').snapshots == Base(s).snapshots && Base(s').runs.Keys == Base(s).runs.Keys
  {
    hide AssertCanBeUndone, UpdateRun;
    var id := if e.UndoClaim? then s.calls[e.call].undo.runId
              else if e.UndoFail? then s.calls[e.call].undoPc.run.id else s.calls[e.call].execPc.run.id;
    forall u: UpdateInput {
      UpdateKeepsKeys(s.store, id, u);
    }
  }

  lemma UpdateKeepsKeys(st: Store, id: Text, u: UpdateInput)
    ensures UpdateRun(st, id, u).Ok? ==>
      var after := UpdateRun(st, id, u).value.0;
      after.snapshots == st.snapshots && after.runs.Keys == st.runs.Keys
  {
    hide Merge;
  }

  lemma SameKeys(s: State, s': State, e: Event, style: Style)
    requires Inv(s) && Apply(s, e, style) == Some(s') && !e.ExecCommit? && !e.UndoCommit? && !e.ExecClaim?
    ensures Base(s').runs.Keys == Base(s).runs.Keys
  {
    hide Inv, Apply;
    if Quiet(e) {
      QuietAdvances(s, s', e, style);
    } else {
      UpdatesOneRun(s, s', e, style);
    }
  }

  lemma NotBackToCreated(s: State, s': State)
    requires OnlyCompletedSnapshots(s) && Advances(s, s')
    requires Base(s').snapshots == Base(s).snapshots && Base(s').runs.Keys == Base(s).runs.Keys
    ensures OnlyCompletedSnapshots(s')
  {
    hide Base, SameIdentity;
    forall id | id in Base(s').runs && Base(s').runs[id].status in {Created, Failed}
      ensures ChildrenOf(Base(s').snapshots, id) == []
    {
      assert id in Base(s).runs.Keys;
    }
  }

  lemma {:induction false} RunKeepsSnapshots(s: State, events: seq<Event>, style: Style)
    requires Inv(s) && OnlyCompletedSnapshots(s) && Run(s, events, style).Some?
    ensures OnlyCompletedSnapshots(Run(s, events, style).value)
    decreases |events|
  {
    hide Inv, Apply, OnlyCompletedSnapshots;
    if events != [] {
      ApplyKeepsInv(s, events[0], style);
      ApplyKeepsSnapshots(s, events[0], style);
      RunKeepsSnapshots(Apply(s, events[0], style).value, events[1..], style);
    }
  }

  /** Nothing an execute handler saved before it threw is ever committed. */
  lemma FailedRunsHaveNoSnapshots(s: State, style: Style, id: Text)
    requires Reachable(s, style) && id in Base(s).runs && Base(s).runs[id].status == Failed
    ensures ChildrenOf(Base(s).snapshots, id) == []
  {
    hide Inv, Run;
    var prefix: Text, clock: int, events: seq<Event> :|
      Run(Init(prefix, clock), events, style) == Some(s);
    InitInv(prefix, clock);
    RunKeepsSnapshots(Init(prefix, clock), events, style);
  }
}
