/** What a call is answered and what becomes of everything it records, over every schedule. */
module RuntimeRecords {
  import opened Prelude
  import opened JsonText
  import opened Lifecycle
  import opened StoreState
  import opened Idempotency
  import opened CanonicalJson
  import opened Runtime
  import opened RuntimeInvariant
  import opened RuntimeSteps
  import opened RuntimeTheorems
  import opened RuntimeRequests
  import opened RuntimeOutcomes

  // ---------------------------------------------------------------- what an execute claims

  /** A stored run within whose scope the request's key falls. */
  predicate TakenBy(run: ActionRun, create: CreateInput) {
    && run.name == create.name && run.actor.id == create.actor.id && run.actor.kind == create.actor.kind
    && run.tenantId == create.tenantId && run.idempotencyKey == create.idempotencyKey
  }

  /** The request as it is stored, with the end of its undo window counted from `t0`. */
  function WithExpiry(req: ExecRequest, t0: int): CreateInput {
    req.create.(undoExpiresAt :=
      if req.create.reversibility.undoable && req.undoWindowMs.Some? then Some(t0 + req.undoWindowMs.value) else None)
  }

  /**
   What claiming gives an execute: a key that does not fit is refused, a key that is taken leads to
   the run that has it, and anything else to exactly one new run, made for the request.
   */
  lemma ExecuteClaims(s: State, s': State, c: CallId, t0: int, t1: int, style: Style)
    requires Reachable(s, style) && Apply(s, ExecClaim(c, t0, t1), style) == Some(s')
    ensures IsExec(s, c) && IsExec(s', c) && s'.calls[c].exec == s.calls[c].exec
    ensures var req, pc := s.calls[c].exec, s'.calls[c].execPc;
      var key := req.create.idempotencyKey;
      if key.Some? && Utf8Length(key.value) > 255 then
        pc == Rejected(ACTION_INPUT_INVALID) && s'.store == s.store && s'.history == s.history
      else if key.Some? && exists id | id in s.store.runs :: TakenBy(s.store.runs[id], req.create) then
        (pc.Replayed? || pc.Mismatched?) && s'.store == s.store && s'.history == s.history
      else
        && pc.Claimed? && MadeFor(pc.run, WithExpiry(req, t0), t1)
        && pc.run.id !in s.store.runs && s'.store.runs == s.store.runs[pc.run.id := pc.run]
        && s'.store.snapshots == s.store.snapshots && s'.store.effects == s.store.effects
        && s'.store.conflicts == s.store.conflicts
  {
    hide Inv, Reachable, StoreState.Valid, MatchRequest, CreateRun, ClaimRun, MadeFor, TakenBy, Utf8Length;
    ReachableInv(s, style);
    Facts(s);
    var req := s.calls[c].exec;
    var input := req.create.(
      undoExpiresAt := UndoExpiration(req.create.reversibility, req.undoWindowMs, t0));
    assert input == WithExpiry(req, t0);
    ClaimStores(s.store, input, t1);
    forall id | id in s.store.runs ensures TakenBy(s.store.runs[id], input) == TakenBy(s.store.runs[id], req.create) {
      ExpiryIsNoScope(s.store.runs[id], req, t0);
    }
  }

  lemma ExpiryIsNoScope(run: ActionRun, req: ExecRequest, t0: int)
    ensures TakenBy(run, WithExpiry(req, t0)) == TakenBy(run, req.create)
  {
  }

  /** One new run made for the input, and nothing else. */
  predicate AddsOne(st: Store, after: Store, run: ActionRun, input: CreateInput, now: int) {
    && MadeFor(run, input, now) && run.id !in st.runs && after.runs == st.runs[run.id := run]
    && after.snapshots == st.snapshots && after.effects == st.effects && after.conflicts == st.conflicts
  }

  /** Creating and claiming, at the store: refused keys, taken keys, and new runs. */
  lemma ClaimStores(st: Store, input: CreateInput, now: int)
    requires StoreState.Valid(st)
    ensures input.idempotencyKey.None? ==>
      && CreateRun(st, input, now).Ok?
      && var (after, run) := CreateRun(st, input, now).value; AddsOne(st, after, run, input, now)
    ensures input.idempotencyKey.Some? ==>
      var key, r := input.idempotencyKey.value, ClaimRun(st, input, now);
      if Utf8Length(key) > 255 then r == Err(ACTION_INPUT_INVALID)
      else
        && r.Ok?
        && var (after, run, created) := r.value;
           if exists id | id in st.runs :: TakenBy(st.runs[id], input) then !created && after == st
           else created && AddsOne(st, after, run, input, now)
  {
    hide StoreState.Valid, FindScope, NewRun, MadeFor, Utf8Length;
    CreateRunStores(st, input, now);
    CreateRunKeepsValid(st, input, now);
    if input.idempotencyKey.Some? {
      FindScopeDecides(st, InputScope(input));
      forall id | id in st.runs ensures RunScope(st.runs[id]) == InputScope(input) <==> TakenBy(st.runs[id], input) {
      }
    }
  }

  /**
   A retry gets the run its first request made, whatever happened since: with the same key, actor,
   action and tenant, a request for the same input and target is answered with that run, and one
   that is answered with it asked for the same input up to key order and for the same target.
   */
  lemma RetryGetsRun(s: State, c: CallId, t0: int, t1: int, s1: State, events: seq<Event>, s2: State,
                     d: CallId, u0: int, u1: int, s3: State, style: Style)
    requires Reachable(s, style) && Apply(s, ExecClaim(c, t0, t1), style) == Some(s1)
    requires IsExec(s1, c) && s1.calls[c].execPc.Claimed?
    requires Run(s1, events, style) == Some(s2) && Apply(s2, ExecClaim(d, u0, u1), style) == Some(s3)
    requires IsExec(s2, d)
    requires var first, again := s.calls[c].exec.create, s2.calls[d].exec.create;
      && first.idempotencyKey.Some? && again.idempotencyKey == first.idempotencyKey && again.name == first.name
      && again.actor.id == first.actor.id && again.actor.kind == first.actor.kind && again.tenantId == first.tenantId
    ensures IsExec(s3, d) && s3.store == s2.store && s3.history == s2.history
    ensures var first, again := s.calls[c].exec.create, s2.calls[d].exec.create;
      var id, pc := s1.calls[c].execPc.run.id, s3.calls[d].execPc;
      && ((pc.Replayed? && pc.run.id == id && id in s2.store.runs && pc.run == s2.store.runs[id])
          || pc == Mismatched(id, IDEMPOTENCY_CONFLICT))
      && (again.input == first.input && SameTarget(first.target, again.target) ==> pc.Replayed?)
      && (pc.Replayed? && FaithfulNumbers(style) ==>
            Same(first.input, again.input) && SameTarget(first.target, again.target))
  {
    hide Inv, Reachable, Run, StoreState.Valid, Same, SameTarget, MatchRequest, MadeFor, Apply, FaithfulNumbers, Utf8Length;
    var id := s1.calls[c].execPc.run.id;
    ExecuteClaims(s, s1, c, t0, t1, style);
    MadeForInput(s1.calls[c].execPc.run, WithExpiry(s.calls[c].exec, t0), t1);
    ReachableStep(s, ExecClaim(c, t0, t1), s1, style);
    ReachableRun(s1, events, style);
    ReachableInv(s1, style);
    ClaimIsFree(s, s1, c, t0, t1, style);
    ClaimIsFree(s2, s3, d, u0, u1, style);
    LifecycleHolds(s1, events, style, id);
    ReachableInv(s2, style);
    StoredUnder(s2, id);
    ReplayStoresNothing(s2, s3, d, u0, u1, style, id);
  }

  lemma MadeForInput(run: ActionRun, input: CreateInput, now: int)
    requires MadeFor(run, input, now)
    ensures run.input == input.input && run.target == input.target && RunScope(run) == InputScope(input)
  {
  }

  lemma ClaimIsFree(s: State, s': State, c: CallId, t0: int, t1: int, style: Style)
    requires Apply(s, ExecClaim(c, t0, t1), style) == Some(s')
    ensures Base(s) == s.store && Base(s') == s'.store && IsExec(s', c)
    ensures IsExec(s, c) && (s.calls[c].exec.create.idempotencyKey.Some? && !s'.calls[c].execPc.Rejected? ==>
      KeyFits(s.calls[c].exec.create.idempotencyKey.value))
  {
    hide MatchRequest, CreateRun, FindScope, KeyFits;
  }

  lemma StoredUnder(s: State, id: Text)
    requires Inv(s) && id in s.store.runs
    ensures s.store.runs[id].id == id
  {
    hide Inv, StoreState.Valid;
    Facts(s);
    StoredUnderId(s.store, id);
  }

  // ---------------------------------------------------------------- what an undo is told before it starts

  /** Something stored for the run forbids its undo: a conflict, or an irreversible effect that was completed. */
  ghost predicate Forbidden(st: Store, id: Text) {
    || (id in st.conflicts && st.conflicts[id] != [])
    || (id in st.effects && exists e | e in st.effects[id] ::
          e.body.status == EffectCompleted && !e.body.reversibility.undoable)
  }

  lemma ForbiddenIsBlocked(st: Store, id: Text)
    ensures Forbidden(st, id) <==> !Unblocked(st, id)
  {
  }

  /** The guard lets an undo pass exactly when nothing forbids it; otherwise the undo fails, its store restored. */
  lemma GuardAnswers(s: State, s': State, c: CallId, style: Style)
    requires Reachable(s, style) && Apply(s, UndoGuard(c), style) == Some(s')
    ensures IsUndo(s, c) && s.calls[c].undoPc.UndoOpened? && IsUndo(s', c) && s'.history == s.history
    ensures var run := s.calls[c].undoPc.run;
      if Forbidden(s.store, run.id) then
        s'.calls[c].undoPc == UndoFailing(run, ACTION_CONFLICT, []) && s'.holder.None? && s'.store == Base(s)
      else
        s'.calls[c].undoPc == Guarded(run, []) && s'.holder == s.holder && s'.store == s.store
  {
    hide Inv, Reachable, StoreState.Valid, Unblocked, GuardError, Forbidden;
    ReachableInv(s, style);
    var run := s.calls[c].undoPc.run;
    assert DoUndoGuard(s, c) == Some(s');
    hide Apply;
    ClaimedRun(s, c);
    GuardReadsEverything(s.store, run);
    GuardConflicts(s.store, run);
    ForbiddenIsBlocked(s.store, run.id);
  }

  /** After the conflict check the undo handler starts exactly when nothing was recorded. */
  lemma StartAnswers(s: State, s': State, c: CallId, style: Style)
    requires Apply(s, UndoStart(c), style) == Some(s')
    ensures IsUndo(s, c) && s.calls[c].undoPc.Guarded? && IsUndo(s', c)
    ensures var run, records := s.calls[c].undoPc.run, s.calls[c].undoPc.records;
      if records == [] then
        s'.calls[c].undoPc == Undoing(run, []) && s'.holder == s.holder && s'.store == s.store
      else
        s'.calls[c].undoPc == UndoFailing(run, ACTION_CONFLICT, records) && s'.holder.None? && s'.store == Base(s)
  {
  }

  // ---------------------------------------------------------------- everything stored stays stored

  /** A record of a run: one of its snapshots, side effects or conflicts. */
  datatype Record =
    | SnapshotRecord(snapshot: Child<SnapshotBody>)
    | EffectRecord(effect: Child<EffectBody>)
    | ConflictRecord(conflict: Child<ConflictBody>)

  /** The record is in its run's list. */
  ghost predicate Has(st: Store, id: Text, r: Record) {
    match r
    case SnapshotRecord(x) => x in ChildrenOf(st.snapshots, id)
    case EffectRecord(x) => x in ChildrenOf(st.effects, id)
    case ConflictRecord(x) => x in ChildrenOf(st.conflicts, id)
  }

  /** Every list has only been appended to. */
  ghost predicate Longer(a: Store, b: Store) {
    forall id ::
      && ChildrenOf(a.snapshots, id) <= ChildrenOf(b.snapshots, id)
      && ChildrenOf(a.effects, id) <= ChildrenOf(b.effects, id)
      && ChildrenOf(a.conflicts, id) <= ChildrenOf(b.conflicts, id)
  }

  lemma LongerHas(a: Store, b: Store, id: Text, r: Record)
    requires Longer(a, b) && Has(a, id, r)
    ensures Has(b, id, r)
  {
  }

  lemma LongerTrans(a: Store, b: Store, c: Store)
    requires Longer(a, b) && Longer(b, c)
    ensures Longer(a, c)
  {
    hide ChildrenOf;
  }

  lemma SameLists(a: Store, b: Store)
    requires b.snapshots == a.snapshots && b.effects == a.effects && b.conflicts == a.conflicts
    ensures Longer(a, b)
  {
  }

  /** The three recording writes only append. */
  lemma AppendsLonger(st: Store, runId: Text, t: int)
    ensures forall body :: SaveSnapshot(st, runId, body, t).Ok? ==> Longer(st, SaveSnapshot(st, runId, body, t).value.0)
    ensures forall body :: RecordEffect(st, runId, body, t).Ok? ==> Longer(st, RecordEffect(st, runId, body, t).value.0)
    ensures forall body ::
      RecordConflict(st, runId, body, t).Ok? ==> Longer(st, RecordConflict(st, runId, body, t).value.0)
  {
  }

  /**
   How a step moves the store: it appends to it, opening or closing a transaction or neither; or it
   puts the captured store back.
   */
  ghost predicate Steps(s: State, s': State) {
    || (s'.holder.None? && s'.store == Base(s))
    || (&& Longer(s.store, s'.store)
        && (s'.holder == s.holder || s'.holder.None? || (s.holder.None? && s'.holder.value.saved == s.store)))
  }

  lemma RecordSteps(s: State, s': State, e: Event, style: Style)
    requires Apply(s, e, style) == Some(s')
    requires e.ExecSnapshot? || e.ExecEffect? || e.UndoFlush? || e.OutsideConflict? || e.OutsideEffect?
    ensures Longer(s.store, s'.store) && s'.holder == s.holder
  {
    hide SaveSnapshot, RecordEffect, RecordConflict, Longer;
    SameLists(s.store, s.store);
    if e.ExecSnapshot? || e.ExecEffect? {
      AppendsLonger(s.store, s.calls[e.call].execPc.run.id, e.t0);
    } else if e.UndoFlush? {
      AppendsLonger(s.store, s.calls[e.call].undoPc.runId, e.t0);
    } else {
      AppendsLonger(s.store, e.runId, e.t0);
    }
  }

  lemma ClaimSteps(s: State, s': State, c: CallId, t0: int, t1: int, style: Style)
    requires Inv(s) && DoExecClaim(s, c, t0, t1, style) == Some(s')
    ensures Longer(s.store, s'.store) && s'.holder == s.holder
  {
    hide Inv, StoreState.Valid, MatchRequest, CreateRun, ClaimRun, MadeFor, TakenBy, Utf8Length;
    Facts(s);
    var req := s.calls[c].exec;
    var input := req.create.(
      undoExpiresAt := UndoExpiration(req.create.reversibility, req.undoWindowMs, t0));
    ClaimStores(s.store, input, t1);
  }

  lemma UpdateSteps(s: State, s': State, e: Event, style: Style)
    requires Apply(s, e, style) == Some(s')
    requires e.ExecOpen? || e.ExecReturn? || e.ExecFail? || e.UndoClaim? || e.UndoReturn? || e.UndoFail?
    ensures Steps(s, s')
  {
    hide AssertCanBeUndone, Merge, Longer, Base;
    SameLists(s.store, s'.store);
  }

  lemma AbortSteps(s: State, s': State, e: Event, style: Style)
    requires Apply(s, e, style) == Some(s') && Aborting(e)
    ensures Steps(s, s')
  {
    hide GuardError, Longer;
    SameLists(s.store, s.store);
  }

  lemma QuietSteps(s: State, s': State, e: Event, style: Style)
    requires Apply(s, e, style) == Some(s')
    requires e.BeginExec? || e.BeginUndo? || e.UndoRead? || e.ExecStart? || e.ExecCommit? || e.UndoCommit?
          || e.UndoOpen? || e.UndoRecord?
    ensures Steps(s, s')
  {
    hide UndoTenantMatches, Longer, Base;
    SameLists(s.store, s.store);
  }

  lemma ApplySteps(s: State, e: Event, s': State, style: Style)
    requires Inv(s) && Apply(s, e, style) == Some(s')
    ensures Steps(s, s')
  {
    if e.ExecClaim? {
      ClaimSteps(s, s', e.call, e.t0, e.t1, style);
    } else {
      hide Inv, Apply, Longer, Base;
      if e.ExecSnapshot? || e.ExecEffect? || e.UndoFlush? || e.OutsideConflict? || e.OutsideEffect? {
        RecordSteps(s, s', e, style);
      } else if e.ExecOpen? || e.ExecReturn? || e.ExecFail? || e.UndoClaim? || e.UndoReturn? || e.UndoFail? {
        UpdateSteps(s, s', e, style);
      } else if Aborting(e) {
        AbortSteps(s, s', e, style);
      } else {
        QuietSteps(s, s', e, style);
      }
    }
  }

  /** What an open transaction has stored follows what was captured. */
  ghost predicate OpenGrows(s: State) {
    Longer(Base(s), s.store)
  }

  lemma StepGrows(s: State, s': State)
    requires OpenGrows(s) && Steps(s, s')
    ensures OpenGrows(s') && Longer(Base(s), Base(s'))
  {
    hide Longer;
    SameLists(Base(s), Base(s));
    SameLists(s.store, s.store);
    SameLists(s'.store, s'.store);
    if Longer(s.store, s'.store) {
      LongerTrans(Base(s), s.store, s'.store);
    }
  }

  lemma {:induction false} RunGrows(s: State, events: seq<Event>, style: Style)
    requires Inv(s) && OpenGrows(s) && Run(s, events, style).Some?
    ensures OpenGrows(Run(s, events, style).value) && Longer(Base(s), Base(Run(s, events, style).value))
    decreases |events|
  {
    hide Inv, Apply, Longer, OpenGrows, Steps;
    if events == [] {
      SameLists(Base(s), Base(s));
    } else {
      var next := Apply(s, events[0], style).value;
      ApplyKeepsInv(s, events[0], style);
      ApplySteps(s, events[0], next, style);
      StepGrows(s, next);
      RunGrows(next, events[1..], style);
      LongerTrans(Base(s), Base(next), Base(Run(s, events, style).value));
    }
  }

  lemma ReachableGrows(s: State, style: Style)
    requires Reachable(s, style)
    ensures OpenGrows(s)
  {
    hide Inv, Run, Longer;
    var prefix: Text, clock: int, events: seq<Event> :|
      Run(Init(prefix, clock), events, style) == Some(s);
    InitInv(prefix, clock);
    SameLists(Empty(prefix), Empty(prefix));
    RunGrows(Init(prefix, clock), events, style);
  }

  /** Once committed, a snapshot, side effect or conflict of a run is there for ever, in its place. */
  lemma StoredRecordsStay(s: State, events: seq<Event>, s2: State, style: Style, id: Text, r: Record)
    requires Reachable(s, style) && Run(s, events, style) == Some(s2) && Has(Base(s), id, r)
    ensures Has(Base(s2), id, r) && Longer(Base(s), Base(s2))
  {
    hide Inv, Reachable, Run, Longer, Has, OpenGrows;
    ReachableInv(s, style);
    ReachableGrows(s, style);
    RunGrows(s, events, style);
    LongerHas(Base(s), Base(s2), id, r);
  }

  // ---------------------------------------------------------------- what an execute handler records

  /** While a call holds the lock, nobody else moves the store or the lock. */
  lemma HeldStays(s: State, s': State, e: Event, style: Style, c: CallId)
    requires Apply(s, e, style) == Some(s') && Holds(s, c) && Stepper(e) != Some(c)
    ensures s'.store == s.store && s'.holder == s.holder
  {
    hide UpdateRun, SaveSnapshot, RecordEffect, GuardError, UndoTenantMatches, MatchRequest, AssertCanBeUndone;
    if e.ExecClaim? || e.ExecOpen? || e.ExecFail? || e.UndoClaim? || e.UndoOpen? || e.UndoFail? || e.UndoFlush?
       || e.OutsideConflict? || e.OutsideEffect? {
      NeedsFreeLock(s, e, style);
    }
  }

  lemma NeedsFreeLock(s: State, e: Event, style: Style)
    requires Apply(s, e, style).Some?
    requires e.ExecClaim? || e.ExecOpen? || e.ExecFail? || e.UndoClaim? || e.UndoOpen? || e.UndoFail? || e.UndoFlush?
          || e.OutsideConflict? || e.OutsideEffect?
    ensures s.holder.None?
  {
    hide CreateRun, ClaimRun, UpdateRun, RecordConflict, RecordEffect, MatchRequest, AssertCanBeUndone;
  }

  /** Where a record made by an execute handler has come to. */
  ghost predicate RecordTrace(s: State, c: CallId, id: Text, r: Record) {
    && IsExec(s, c)
    && match s.calls[c].execPc
       case Handling(run) => run.id == id && Holds(s, c) && Has(s.store, id, r)
       case Wrote(run, _, _, _) => run.id == id && Holds(s, c) && Has(s.store, id, r)
       case Executed(run) => run.id == id && Has(Base(s), id, r)
       case Failing(_, _, _) => true
       case ExecThrew(_, _) => true
       case _ => false
  }

  lemma RecordTraceOthers(s: State, s': State, e: Event, style: Style, c: CallId, id: Text, r: Record)
    requires Inv(s) && OpenGrows(s) && Apply(s, e, style) == Some(s') && Stepper(e) != Some(c)
    requires RecordTrace(s, c, id, r)
    ensures RecordTrace(s', c, id, r)
  {
    hide Inv, Apply, Has, Longer, OpenGrows, Steps, Base;
    BystanderStays(s, s', e, style, c);
    if Holds(s, c) {
      HeldStays(s, s', e, style, c);
    }
    ApplySteps(s, e, s', style);
    StepGrows(s, s');
    if s.calls[c].execPc.Executed? {
      LongerHas(Base(s), Base(s'), id, r);
    }
  }

  lemma RecordTraceOwn(s: State, s': State, e: Event, style: Style, c: CallId, id: Text, r: Record)
    requires Inv(s) && OpenGrows(s) && Apply(s, e, style) == Some(s') && Stepper(e) == Some(c)
    requires RecordTrace(s, c, id, r)
    ensures RecordTrace(s', c, id, r)
  {
    hide Inv, Has, Longer, OpenGrows, Steps;
    if e.ExecSnapshot? || e.ExecEffect? {
      RecordSteps(s, s', e, style);
      LongerHas(s.store, s'.store, id, r);
      RecordingStays(s, s', e, style);
    } else if e.ExecReturn? {
      ReturnStays(s, s', e, style);
      SameLists(s.store, s'.store);
      LongerHas(s.store, s'.store, id, r);
    } else {
      EndStays(s, s', e, style);
    }
  }

  lemma RecordingStays(s: State, s': State, e: Event, style: Style)
    requires (e.ExecSnapshot? || e.ExecEffect?) && Apply(s, e, style) == Some(s')
    ensures s'.calls == s.calls && s'.holder == s.holder
  {
    hide SaveSnapshot, RecordEffect;
  }

  lemma ReturnStays(s: State, s': State, e: Event, style: Style)
    requires Inv(s) && e.ExecReturn? && Apply(s, e, style) == Some(s')
    ensures IsExec(s, e.call) && s.calls[e.call].execPc.Handling? && IsExec(s', e.call)
    ensures s'.calls[e.call].execPc.Wrote? && s'.calls[e.call].execPc.run.id == s.calls[e.call].execPc.run.id
    ensures s'.holder == s.holder && s'.store == s.store.(runs := s'.store.runs)
  {
    hide Inv, StoreState.Valid, DirtyOk, ResolvedOk;
    Mine(s, e.call);
  }

  lemma EndStays(s: State, s': State, e: Event, style: Style)
    requires Apply(s, e, style) == Some(s') && Stepper(e).Some? && IsExec(s, e.call)
    requires !e.ExecSnapshot? && !e.ExecEffect? && !e.ExecReturn?
    requires var pc := s.calls[e.call].execPc;
      pc.Handling? || pc.Wrote? || pc.Executed? || pc.Failing? || pc.ExecThrew?
    ensures IsExec(s', e.call)
    ensures var pc, pc' := s.calls[e.call].execPc, s'.calls[e.call].execPc;
      || pc'.Failing? || pc'.ExecThrew?
      || (pc.Wrote? && pc' == Executed(pc.run) && s'.store == s.store && s'.holder.None?)
  {
    hide UpdateRun, CreateRun, ClaimRun, MatchRequest;
  }

  lemma {:induction false} RunKeepsRecord(s: State, events: seq<Event>, style: Style, c: CallId, id: Text, r: Record)
    requires Inv(s) && OpenGrows(s) && RecordTrace(s, c, id, r) && Run(s, events, style).Some?
    ensures RecordTrace(Run(s, events, style).value, c, id, r)
    decreases |events|
  {
    hide Inv, Apply, RecordTrace, OpenGrows, Steps, Longer;
    if events != [] {
      var next := Apply(s, events[0], style).value;
      ApplyKeepsInv(s, events[0], style);
      ApplySteps(s, events[0], next, style);
      StepGrows(s, next);
      if Stepper(events[0]) == Some(c) {
        RecordTraceOwn(s, next, events[0], style, c, id, r);
      } else {
        RecordTraceOthers(s, next, events[0], style, c, id, r);
      }
      RunKeepsRecord(next, events[1..], style, c, id, r);
    }
  }

  /** The record was made now, with that content. */
  predicate Made<T(==)>(child: Child<T>, id: Text, body: T, t: int) {
    child.actionRunId == id && child.body == body && child.createdAt == t
  }

  /**
   A snapshot or side effect that an execute handler records is stored as given, and when the
   execute returns it is committed with it and stays, whatever other calls do meanwhile.
   */
  lemma HandlerRecordsAreKept(s: State, e: Event, s1: State, events: seq<Event>, s2: State, style: Style)
    returns (r: Record)
    requires Reachable(s, style) && (e.ExecEffect? || e.ExecSnapshot?) && Apply(s, e, style) == Some(s1)
    requires Run(s1, events, style) == Some(s2)
    ensures IsExec(s, e.call) && s.calls[e.call].execPc.Handling? && IsExec(s2, e.call)
    ensures var id := s.calls[e.call].execPc.run.id;
      && (e.ExecEffect? ==> r.EffectRecord? && Made(r.effect, id, e.effect, e.t0))
      && (e.ExecSnapshot? ==> r.SnapshotRecord? && Made(r.snapshot, id, e.snapshot, e.t0))
      && Has(s1.store, id, r)
      && (s2.calls[e.call].execPc.Executed? ==> Has(Base(s2), id, r))
  {
    hide Inv, Reachable, Run, OpenGrows, Steps, Longer;
    ReachableInv(s, style);
    ReachableGrows(s, style);
    r := Recorded(s, e, s1, style);
    hide Apply, Has;
    ApplyKeepsInv(s, e, style);
    ApplySteps(s, e, s1, style);
    StepGrows(s, s1);
    RunKeepsRecord(s1, events, style, e.call, s.calls[e.call].execPc.run.id, r);
  }

  lemma Recorded(s: State, e: Event, s1: State, style: Style) returns (r: Record)
    requires (e.ExecEffect? || e.ExecSnapshot?) && Apply(s, e, style) == Some(s1)
    ensures IsExec(s, e.call) && s.calls[e.call].execPc.Handling?
    ensures var id := s.calls[e.call].execPc.run.id;
      && (e.ExecEffect? ==> r.EffectRecord? && Made(r.effect, id, e.effect, e.t0))
      && (e.ExecSnapshot? ==> r.SnapshotRecord? && Made(r.snapshot, id, e.snapshot, e.t0))
      && Has(s1.store, id, r) && RecordTrace(s1, e.call, id, r)
  {
    hide SaveSnapshot, RecordEffect;
    var id := s.calls[e.call].execPc.run.id;
    if e.ExecEffect? {
      RecordEffectAppends(s.store, id, e.effect, e.t0);
      r := EffectRecord(RecordEffect(s.store, id, e.effect, e.t0).value.1);
    } else {
      SaveSnapshotAppends(s.store, id, e.snapshot, e.t0);
      r := SnapshotRecord(SaveSnapshot(s.store, id, e.snapshot, e.t0).value.1);
    }
  }

  /** What is recorded outside any transaction is committed at once, as given. */
  lemma OutsideRecordsAreKept(s: State, e: Event, s1: State, style: Style) returns (r: Record)
    requires (e.OutsideEffect? || e.OutsideConflict?) && Apply(s, e, style) == Some(s1)
    ensures e.OutsideEffect? ==> r.EffectRecord? && Made(r.effect, e.runId, e.effect, e.t0)
    ensures e.OutsideConflict? ==> r.ConflictRecord? && Made(r.conflict, e.runId, e.conflict, e.t0)
    ensures Has(Base(s1), e.runId, r)
  {
    hide RecordEffect, RecordConflict;
    if e.OutsideEffect? {
      RecordEffectAppends(s.store, e.runId, e.effect, e.t0);
      r := EffectRecord(RecordEffect(s.store, e.runId, e.effect, e.t0).value.1);
    } else {
      RecordConflictAppends(s.store, e.runId, e.conflict, e.t0);
      r := ConflictRecord(RecordConflict(s.store, e.runId, e.conflict, e.t0).value.1);
    }
  }

  /** A record that forbids undoing its run. */
  predicate Forbids(r: Record) {
    r.ConflictRecord?
    || (r.EffectRecord? && r.effect.body.status == EffectCompleted && !r.effect.body.reversibility.undoable)
  }

  /**
   Once a conflict or a completed irreversible effect of a run is committed, every later guard of an
   undo of that run, in every schedule, refuses it with a conflict and restores the store.
   */
  lemma ForbiddenForEver(s: State, id: Text, r: Record, events: seq<Event>, s2: State, c: CallId, s3: State, style: Style)
    requires Reachable(s, style) && Has(Base(s), id, r) && Forbids(r)
    requires Run(s, events, style) == Some(s2) && Apply(s2, UndoGuard(c), style) == Some(s3)
    requires IsUndo(s2, c) && s2.calls[c].undoPc.UndoOpened? && s2.calls[c].undoPc.run.id == id
    ensures IsUndo(s3, c) && s3.calls[c].undoPc == UndoFailing(s2.calls[c].undoPc.run, ACTION_CONFLICT, [])
    ensures s3.holder.None? && s3.store == Base(s2)
  {
    hide Reachable, Run, Apply, Longer, OpenGrows, Has, Forbidden;
    StoredRecordsStay(s, events, s2, style, id, r);
    ReachableRun(s, events, style);
    ReachableGrows(s2, style);
    OpenHas(s2, id, r);
    HasForbids(s2.store, id, r);
    GuardAnswers(s2, s3, c, style);
  }

  lemma OpenHas(s: State, id: Text, r: Record)
    requires OpenGrows(s) && Has(Base(s), id, r)
    ensures Has(s.store, id, r)
  {
    hide Longer, Has;
    LongerHas(Base(s), s.store, id, r);
  }

  lemma HasForbids(st: Store, id: Text, r: Record)
    requires Has(st, id, r) && Forbids(r)
    ensures Forbidden(st, id)
  {
  }

  // ---------------------------------------------------------------- what an undo records

  ghost predicate StoredConflict(st: Store, id: Text, body: ConflictBody) {
    exists x | x in ChildrenOf(st.conflicts, id) :: x.body == body
  }

  lemma LongerConflict(a: Store, b: Store, id: Text, body: ConflictBody)
    requires Longer(a, b) && StoredConflict(a, id, body)
    ensures StoredConflict(b, id, body)
  {
  }

  /** Each flush step stores the next deferred conflict, as recorded and at that time, or ends the undo. */
  lemma FlushStoresNext(s: State, c: CallId, t: int, s': State, style: Style)
    requires Apply(s, UndoFlush(c, t), style) == Some(s')
    ensures IsUndo(s, c) && s.calls[c].undoPc.Flushing? && IsUndo(s', c) && s.holder.None? && s'.holder.None?
    ensures var pc := s.calls[c].undoPc;
      if pc.records == [] then s'.calls[c].undoPc == UndoThrew(pc.error) && s'.store == s.store
      else
        && s'.calls[c].undoPc == Flushing(pc.runId, pc.error, pc.records[1..])
        && exists child :: OneMore(s.store.conflicts, s'.store.conflicts, child, pc.runId, pc.records[0], t)
  {
    hide RecordConflict, OneMore;
    var pc := s.calls[c].undoPc;
    if pc.records != [] {
      RecordConflictAppends(s.store, pc.runId, pc.records[0], t);
    }
  }

  /** Where a conflict recorded in an undo has come to; `early` when recorded before its handler started. */
  ghost predicate ConflictTrace(s: State, c: CallId, id: Text, body: ConflictBody, early: bool) {
    && IsUndo(s, c)
    && match s.calls[c].undoPc
       case Guarded(run, records) => early && run.id == id && body in records
       case Undoing(run, records) => !early && run.id == id && body in records
       case UndoWrote(_, _, _, _) => !early
       case UndoReturned(_) => !early
       case UndoFailing(run, _, records) => run.id == id && body in records
       case Flushing(i, _, records) => i == id && (body in records || StoredConflict(Base(s), id, body))
       case UndoThrew(_) => StoredConflict(Base(s), id, body)
       case _ => false
  }

  lemma ConflictTraceOthers(s: State, s': State, e: Event, style: Style, c: CallId, id: Text, body: ConflictBody,
                            early: bool)
    requires Inv(s) && OpenGrows(s) && Apply(s, e, style) == Some(s') && Stepper(e) != Some(c)
    requires ConflictTrace(s, c, id, body, early)
    ensures ConflictTrace(s', c, id, body, early)
  {
    hide Inv, Apply, StoredConflict, Longer, OpenGrows, Steps, Base;
    BystanderStays(s, s', e, style, c);
    ApplySteps(s, e, s', style);
    StepGrows(s, s');
    if StoredConflict(Base(s), id, body) {
      LongerConflict(Base(s), Base(s'), id, body);
    }
  }

  lemma ConflictTraceOwn(s: State, s': State, e: Event, style: Style, c: CallId, id: Text, body: ConflictBody,
                         early: bool)
    requires Inv(s) && OpenGrows(s) && Apply(s, e, style) == Some(s') && Stepper(e) == Some(c)
    requires ConflictTrace(s, c, id, body, early)
    ensures ConflictTrace(s', c, id, body, early)
  {
    hide Inv, StoredConflict, Longer, OpenGrows, Steps;
    if e.UndoFlush? {
      FlushKeepsTrace(s, s', c, e.t0, style, id, body);
    } else {
      FailTrace(s, s', e, style, c, id, body, early);
    }
  }

  lemma FlushKeepsTrace(s: State, s': State, c: CallId, t: int, style: Style, id: Text, body: ConflictBody)
    requires Inv(s) && OpenGrows(s) && Apply(s, UndoFlush(c, t), style) == Some(s')
    requires IsUndo(s, c) && s.calls[c].undoPc.Flushing? && s.calls[c].undoPc.runId == id
    requires body in s.calls[c].undoPc.records || StoredConflict(Base(s), id, body)
    ensures IsUndo(s', c)
    ensures s'.calls[c].undoPc.Flushing? ==>
      && s'.calls[c].undoPc.runId == id
      && (body in s'.calls[c].undoPc.records || StoredConflict(Base(s'), id, body))
    ensures s'.calls[c].undoPc.UndoThrew? || s'.calls[c].undoPc.Flushing?
    ensures s'.calls[c].undoPc.UndoThrew? ==> StoredConflict(Base(s'), id, body)
  {
    hide Inv, StoredConflict, Longer, OpenGrows, Steps;
    FlushStoresNext(s, c, t, s', style);
    ApplySteps(s, UndoFlush(c, t), s', style);
    hide Apply;
    var records := s.calls[c].undoPc.records;
    StepGrows(s, s');
    if StoredConflict(Base(s), id, body) {
      LongerConflict(Base(s), Base(s'), id, body);
    } else if body == records[0] {
      var child :| OneMore(s.store.conflicts, s'.store.conflicts, child, id, records[0], t);
      StoredByFlush(s.store, s'.store, child, id, records[0], t);
    }
  }

  lemma StoredByFlush(a: Store, b: Store, child: Child<ConflictBody>, id: Text, body: ConflictBody, t: int)
    requires OneMore(a.conflicts, b.conflicts, child, id, body, t)
    ensures StoredConflict(b, id, body)
  {
    assert child in ChildrenOf(b.conflicts, id);
  }

  lemma FailTrace(s: State, s': State, e: Event, style: Style, c: CallId, id: Text, body: ConflictBody, early: bool)
    requires Apply(s, e, style) == Some(s') && Stepper(e) == Some(c) && !e.UndoFlush?
    requires ConflictTrace(s, c, id, body, early)
    ensures ConflictTrace(s', c, id, body, early)
  {
    hide StoredConflict, UpdateRun;
  }

  lemma {:induction false} RunKeepsConflict(s: State, events: seq<Event>, style: Style, c: CallId, id: Text,
                                           body: ConflictBody, early: bool)
    requires Inv(s) && OpenGrows(s) && ConflictTrace(s, c, id, body, early) && Run(s, events, style).Some?
    ensures ConflictTrace(Run(s, events, style).value, c, id, body, early)
    decreases |events|
  {
    hide Inv, Apply, ConflictTrace, OpenGrows, Steps, Longer;
    if events != [] {
      var next := Apply(s, events[0], style).value;
      ApplyKeepsInv(s, events[0], style);
      ApplySteps(s, events[0], next, style);
      StepGrows(s, next);
      if Stepper(events[0]) == Some(c) {
        ConflictTraceOwn(s, next, events[0], style, c, id, body, early);
      } else {
        ConflictTraceOthers(s, next, events[0], style, c, id, body, early);
      }
      RunKeepsConflict(next, events[1..], style, c, id, body, early);
    }
  }

  /**
   A conflict recorded in an undo counts, in every schedule: recorded by the conflict check, it keeps
   the handler from ever starting; and once the undo has thrown, it is stored for the run.
   */
  lemma RecordedConflictCounts(s: State, c: CallId, body: ConflictBody, s1: State, events: seq<Event>, s2: State,
                               style: Style)
    requires Reachable(s, style) && Apply(s, UndoRecord(c, body), style) == Some(s1)
    requires Run(s1, events, style) == Some(s2)
    ensures IsUndo(s, c) && IsUndo(s2, c) && (s.calls[c].undoPc.Guarded? || s.calls[c].undoPc.Undoing?)
    ensures var before, pc := s.calls[c].undoPc, s2.calls[c].undoPc;
      && (pc.UndoThrew? ==> StoredConflict(Base(s2), before.run.id, body))
      && (before.Guarded? ==> !pc.Undoing? && !pc.UndoWrote? && !pc.UndoReturned?)
  {
    hide Inv, Reachable, Run, OpenGrows, Steps, Longer, StoredConflict;
    ReachableInv(s, style);
    ReachableGrows(s, style);
    var before := s.calls[c].undoPc;
    assert ConflictTrace(s1, c, before.run.id, body, before.Guarded?);
    ApplyKeepsInv(s, UndoRecord(c, body), style);
    ApplySteps(s, UndoRecord(c, body), s1, style);
    StepGrows(s, s1);
    RunKeepsConflict(s1, events, style, c, before.run.id, body, before.Guarded?);
  }
}
