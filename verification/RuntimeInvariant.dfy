/** The invariant of the runtime protocol and the proof that every step keeps it. */
module RuntimeInvariant {
  import opened Prelude
  import opened JsonText
  import opened Lifecycle
  import opened StoreState
  import opened Runtime

  /** The run whose next status only this call may write. */
  function Owned(call: Call): Option<Text> {
    match call
    case ExecCall(_, pc) =>
      (match pc
       case Claimed(run) => Some(run.id)
       case Marked(run) => Some(run.id)
       case Handling(run) => Some(run.id)
       case Wrote(run, _, _, _) => Some(run.id)
       case Failing(run, _, _) => Some(run.id)
       case _ => None)
    case UndoCall(_, pc) =>
      (match pc
       case UndoClaimed(run) => Some(run.id)
       case UndoOpened(run) => Some(run.id)
       case Guarded(run, _) => Some(run.id)
       case Undoing(run, _) => Some(run.id)
       case UndoWrote(run, _, _, _) => Some(run.id)
       case UndoFailing(run, _, _) => Some(run.id)
       case _ => None)
  }

  /** The call is between opening and closing its transaction. */
  predicate InTransaction(call: Call) {
    match call
    case ExecCall(_, pc) => pc.Marked? || pc.Handling? || pc.Wrote?
    case UndoCall(_, pc) => pc.UndoOpened? || pc.Guarded? || pc.Undoing? || pc.UndoWrote?
  }

  /** The run an execute call created or found. */
  function Resolved(call: Call): Option<Text> {
    match call
    case ExecCall(_, Executed(run)) => Some(run.id)
    case ExecCall(_, ExecThrew(id, _)) => Some(id)
    case ExecCall(_, Replayed(run)) => Some(run.id)
    case ExecCall(_, Mismatched(id, _)) => Some(id)
    case ExecCall(_, _) => Owned(call)
    case UndoCall(_, _) => None
  }

  function ExecutedMetadata(h: History): Option<Metadata> {
    MergeMetadata(h.input.metadata, h.execMetadata)
  }

  function UndoneMetadata(h: History): Option<Metadata> {
    MergeMetadata(ExecutedMetadata(h), h.undoMetadata)
  }

  ghost predicate NotUndone(run: ActionRun, h: History) {
    && run.undoStartedAt.None? && run.undoneAt.None?
    && h.undoClaims == 0 && h.undoStarts == 0 && h.undoCommits == 0
  }

  ghost predicate WasExecuted(run: ActionRun, h: History) {
    && run.executedAt.Some? && run.createdAt <= run.executedAt.value
    && h.execStarts == 1 && h.execCommits == 1
  }

  /** The undo was claimed once, in time, and after execution. */
  ghost predicate WasClaimed(run: ActionRun, h: History, clock: int) {
    && WasExecuted(run, h)
    && h.undoClaims == 1 && h.undoStarts <= 1
    && run.reversibility.undoable
    && run.undoStartedAt.Some?
    && run.executedAt.value <= h.checkedAt <= run.undoStartedAt.value <= clock
    && (run.undoExpiresAt.Some? ==> h.checkedAt < run.undoExpiresAt.value)
  }

  /** What a committed run looks like at each status, against what happened to it. */
  ghost predicate RunOk(run: ActionRun, h: History, clock: int) {
    && SameIdentity(run, NewRun(h.input, run.id, run.createdAt))
    && run.createdAt <= clock
    && h.execStarts <= 1
    && match run.status
       case Created =>
         && run.executedAt.None? && h.execCommits == 0 && NotUndone(run, h)
         && run.metadata == h.input.metadata
       case Completed =>
         && WasExecuted(run, h) && run.executedAt.value <= clock && NotUndone(run, h)
         && run.metadata == ExecutedMetadata(h)
       case Failed =>
         && run.executedAt.Some? && run.createdAt <= run.executedAt.value <= clock
         && h.execCommits == 0 && NotUndone(run, h)
         && run.metadata == h.input.metadata
       case UndoRunning =>
         && WasClaimed(run, h, clock) && run.undoneAt.None? && h.undoCommits == 0
         && run.metadata == ExecutedMetadata(h)
       case Undone =>
         && WasClaimed(run, h, clock) && h.undoStarts == 1 && h.undoCommits == 1
         && run.undoneAt.Some? && run.undoStartedAt.value <= run.undoneAt.value <= clock
         && run.metadata == UndoneMetadata(h)
       case UndoFailed =>
         && WasClaimed(run, h, clock) && run.undoneAt.None? && h.undoCommits == 0
         && run.metadata == ExecutedMetadata(h)
       case _ => false
  }

  ghost predicate ExecOk(s: State, c: CallId, pc: ExecPc) {
    var base := Base(s);
    match pc
    case Claimed(run) =>
      && run.id in base.runs && run.id in s.history && base.runs[run.id] == run
      && run.status == Created && s.history[run.id].execStarts == 0
    case Marked(run) => InExec(s, c, run) && s.history[run.id].execStarts == 0
    case Handling(run) => InExec(s, c, run) && s.history[run.id].execStarts == 1
    case Wrote(run, data, md, at) =>
      && Holds(s, c) && run.id in base.runs && run.id in s.history && run.id in s.store.runs
      && base.runs[run.id].status == Created && s.history[run.id].execStarts == 1
      && run == Merge(base.runs[run.id], CompletedUpdate(base.runs[run.id], data, md, at))
      && s.store.runs[run.id] == run
      && run.createdAt <= at <= s.clock
    case Failing(run, _, at) =>
      && run.id in base.runs && run.id in s.history && base.runs[run.id].status == Created
      && base.runs[run.id].createdAt <= at <= s.clock
    case _ => true
  }

  ghost predicate InExec(s: State, c: CallId, run: ActionRun) {
    && Holds(s, c) && run.id in Base(s).runs && run.id in s.history && run.id in s.store.runs
    && Base(s).runs[run.id].status == Created
    && run == Base(s).runs[run.id].(status := Running)
    && s.store.runs[run.id] == run
  }

  ghost predicate UndoOk(s: State, c: CallId, req: UndoRequest, pc: UndoPc) {
    var base := Base(s);
    match pc
    case UndoClaimed(run) => Claims(s, run) && s.history[run.id].undoStarts == 0
    case UndoOpened(run) => InUndo(s, c, run) && s.history[run.id].undoStarts == 0
    case Guarded(run, _) =>
      && InUndo(s, c, run) && s.history[run.id].undoStarts == 0
      && Unblocked(s.store, run.id)
    case Undoing(run, _) =>
      && InUndo(s, c, run) && s.history[run.id].undoStarts == 1
      && Unblocked(s.store, run.id)
    case UndoWrote(run, data, md, at) =>
      && Holds(s, c) && run.id in base.runs && run.id in s.history && run.id in s.store.runs
      && base.runs[run.id].status == UndoRunning && s.history[run.id].undoStarts == 1
      && run == Merge(base.runs[run.id], UndoneUpdate(base.runs[run.id], req.actor, data, md, at))
      && s.store.runs[run.id] == run
      && run.undoStartedAt.Some? && run.undoStartedAt.value <= at <= s.clock
    case UndoFailing(run, _, _) => Claims(s, run)
    case Flushing(id, _, _) => id in base.runs && base.runs[id].status == UndoFailed
    case _ => true
  }

  ghost predicate Claims(s: State, run: ActionRun) {
    && run.id in Base(s).runs && run.id in s.history
    && Base(s).runs[run.id] == run && run.status == UndoRunning
  }

  ghost predicate InUndo(s: State, c: CallId, run: ActionRun) {
    Holds(s, c) && Claims(s, run) && run.id in s.store.runs && s.store.runs[run.id] == run
  }

  /** No stored conflict and no completed irreversible side effect stands in the way. */
  ghost predicate Unblocked(store: Store, id: Text) {
    && ChildrenOf(store.conflicts, id) == []
    && forall e | e in ChildrenOf(store.effects, id) ::
         e.body.status == EffectCompleted ==> e.body.reversibility.undoable
  }

  ghost predicate CallOk(s: State, c: CallId)
    requires c in s.calls
  {
    match s.calls[c]
    case ExecCall(_, pc) => ExecOk(s, c, pc)
    case UndoCall(req, pc) => UndoOk(s, c, req, pc)
  }

  ghost predicate ResolvedOk(s: State, c: CallId)
    requires c in s.calls
  {
    var id := Resolved(s.calls[c]);
    id.Some? ==>
      && id.value in Base(s).runs
      && RunScope(Base(s).runs[id.value]) == InputScope(s.calls[c].exec.create)
  }

  /** The open transaction has changed nothing but its own run and that run's records. */
  ghost predicate DirtyOk(s: State) {
    s.holder.Some? ==>
      var saved, c := s.holder.value.saved, s.holder.value.call;
      && StoreState.Valid(s.store)
      && c in s.calls && InTransaction(s.calls[c]) && Owned(s.calls[c]).Some?
      && s.store.prefix == saved.prefix && s.store.order == saved.order
      && s.store.runs.Keys == saved.runs.Keys
      && s.store.conflicts == saved.conflicts
      && (s.calls[c].UndoCall? ==> s.store.effects == saved.effects)
      && forall id | id in saved.runs && id != Owned(s.calls[c]).value ::
           && s.store.runs[id] == saved.runs[id]
           && ChildrenOf(s.store.snapshots, id) == ChildrenOf(saved.snapshots, id)
           && ChildrenOf(s.store.effects, id) == ChildrenOf(saved.effects, id)
  }

  /** At most one run per idempotency scope. */
  ghost predicate KeysUnique(runs: map<Text, ActionRun>) {
    forall a, b | a in runs && b in runs && a != b ::
      runs[a].idempotencyKey.Some? ==> RunScope(runs[a]) != RunScope(runs[b])
  }

  ghost predicate RunsOk(s: State) {
    && s.history.Keys == Base(s).runs.Keys
    && forall id | id in Base(s).runs :: RunOk(Base(s).runs[id], s.history[id], s.clock)
  }

  ghost predicate OwnersDistinct(s: State) {
    forall c, d | c in s.calls && d in s.calls && c != d ::
      Owned(s.calls[c]).Some? ==> Owned(s.calls[c]) != Owned(s.calls[d])
  }

  ghost predicate OneTransaction(s: State) {
    forall c | c in s.calls :: InTransaction(s.calls[c]) ==> Holds(s, c)
  }

  ghost predicate Inv(s: State) {
    && StoreState.Valid(Base(s))
    && RunsOk(s)
    && (forall c | c in s.calls :: CallOk(s, c))
    && (forall c | c in s.calls :: ResolvedOk(s, c))
    && OwnersDistinct(s)
    && OneTransaction(s)
    && DirtyOk(s)
    && KeysUnique(Base(s).runs)
  }

  // ---------------------------------------------------------------- one step

  /** Only run `t` changed among the committed runs and histories. */
  ghost predicate Touches(s: State, s': State, t: Option<Text>) {
    && s.clock <= s'.clock
    && Base(s).runs.Keys <= Base(s').runs.Keys
    && s'.history.Keys == Base(s').runs.Keys
    && (forall id | id in Base(s').runs :: id in Base(s).runs || t == Some(id))
    && (forall id | id in Base(s).runs && Some(id) != t :: Base(s').runs[id] == Base(s).runs[id])
    && (forall id | id in Base(s).runs && Some(id) != t && id in s.history ::
         s'.history[id] == s.history[id])
  }

  /** Every call but `c` stays where it is. */
  ghost predicate OthersStay(s: State, s': State, c: Option<CallId>) {
    && s.calls.Keys <= s'.calls.Keys
    && (forall d | d in s'.calls && Some(d) != c :: d in s.calls && s'.calls[d] == s.calls[d])
  }

  /** Either nobody else has a transaction open, or nothing a transaction sees has changed. */
  ghost predicate Undisturbed(s: State, s': State, c: Option<CallId>) {
    || (s.store == s'.store && s.holder == s'.holder)
    || (forall d | d in s.calls && Some(d) != c :: !InTransaction(s.calls[d]))
  }

  /** The committed run and history that a call's invariant talks about. */
  function Watched(call: Call): Option<Text> {
    if call.UndoCall? && call.undoPc.Flushing? then Some(call.undoPc.runId) else Owned(call)
  }

  lemma OtherCallOk(s: State, s': State, d: CallId)
    requires d in s.calls && d in s'.calls && s'.calls[d] == s.calls[d] && CallOk(s, d)
    requires s.clock <= s'.clock
    requires InTransaction(s.calls[d]) ==> s.store == s'.store && s.holder == s'.holder
    requires Watched(s.calls[d]).Some? ==>
      var id := Watched(s.calls[d]).value;
      && (id in Base(s).runs ==> id in Base(s').runs && Base(s').runs[id] == Base(s).runs[id])
      && (id in s.history ==> id in s'.history && s'.history[id] == s.history[id])
    ensures CallOk(s', d)
  {
    match s.calls[d]
    case ExecCall(_, pc) => OtherExecOk(s, s', d, pc);
    case UndoCall(req, pc) => OtherUndoOk(s, s', d, req, pc);
  }

  lemma OtherExecOk(s: State, s': State, d: CallId, pc: ExecPc)
    requires ExecOk(s, d, pc) && s.clock <= s'.clock
    requires pc.Marked? || pc.Handling? || pc.Wrote? ==> s.store == s'.store && s.holder == s'.holder
    requires pc.Claimed? || pc.Marked? || pc.Handling? || pc.Wrote? || pc.Failing? ==>
      var id := pc.run.id;
      && (id in Base(s).runs ==> id in Base(s').runs && Base(s').runs[id] == Base(s).runs[id])
      && (id in s.history ==> id in s'.history && s'.history[id] == s.history[id])
    ensures ExecOk(s', d, pc)
  {
  }

  lemma OtherUndoOk(s: State, s': State, d: CallId, req: UndoRequest, pc: UndoPc)
    requires UndoOk(s, d, req, pc) && s.clock <= s'.clock
    requires pc.UndoOpened? || pc.Guarded? || pc.Undoing? || pc.UndoWrote? ==>
      s.store == s'.store && s.holder == s'.holder
    requires Watched(UndoCall(req, pc)).Some? ==>
      var id := Watched(UndoCall(req, pc)).value;
      && (id in Base(s).runs ==> id in Base(s').runs && Base(s').runs[id] == Base(s).runs[id])
      && (id in s.history ==> id in s'.history && s'.history[id] == s.history[id])
    ensures UndoOk(s', d, req, pc)
  {
  }

  lemma RunOkLater(run: ActionRun, h: History, clock: int, clock': int)
    requires RunOk(run, h, clock) && clock <= clock'
    ensures RunOk(run, h, clock')
  {
  }

  lemma RunsStayOk(s: State, s': State, t: Option<Text>)
    requires RunsOk(s) && Touches(s, s', t)
    requires t.Some? ==>
      t.value in Base(s').runs && RunOk(Base(s').runs[t.value], s'.history[t.value], s'.clock)
    ensures RunsOk(s')
  {
    forall id | id in Base(s').runs ensures RunOk(Base(s').runs[id], s'.history[id], s'.clock) {
      if Some(id) != t {
        assert id in s.history.Keys;
        RunOkLater(Base(s).runs[id], s.history[id], s.clock, s'.clock);
      }
    }
  }

  lemma CallStaysOk(s: State, s': State, c: Option<CallId>, t: Option<Text>, d: CallId)
    requires s.history.Keys == Base(s).runs.Keys
    requires Touches(s, s', t) && OthersStay(s, s', c) && Undisturbed(s, s', c)
    requires d in s'.calls && Some(d) != c && CallOk(s, d)
    requires t.Some? ==> Owned(s.calls[d]) != t
    requires t.Some? && t.value in Base(s).runs ==> Base(s).runs[t.value].status != UndoFailed
    ensures CallOk(s', d)
  {
    var call := s.calls[d];
    if Watched(call).Some? {
      var id := Watched(call).value;
      assert id in s.history ==> id in s.history.Keys;
      assert id in Base(s).runs ==> Some(id) != t;
    }
    OtherCallOk(s, s', d);
  }

  lemma ResolvedStaysOk(s: State, s': State, c: Option<CallId>, t: Option<Text>, d: CallId)
    requires Touches(s, s', t) && OthersStay(s, s', c)
    requires d in s'.calls && Some(d) != c && ResolvedOk(s, d)
    requires t.Some? && t.value in Base(s).runs ==>
      t.value in Base(s').runs && SameIdentity(Base(s').runs[t.value], Base(s).runs[t.value])
    ensures ResolvedOk(s', d)
  {
    var id := Resolved(s.calls[d]);
    if id.Some? && id == t {
      assert RunScope(Base(s').runs[id.value]) == RunScope(Base(s).runs[id.value]);
    }
  }

  /**
   A step of call `c` that changes at most run `t` keeps the invariant, provided the parts that
   mention `c` and `t` hold again.
   */
  lemma StepKeepsInv(s: State, s': State, c: Option<CallId>, t: Option<Text>)
    requires Inv(s) && Touches(s, s', t) && OthersStay(s, s', c) && Undisturbed(s, s', c)
    requires StoreState.Valid(Base(s')) && DirtyOk(s')
    requires TouchOk(s, s', c, t)
    requires c.Some? ==> ActorOk(s, s', c.value, t)
    requires forall d | d in s.calls && Some(d) != c && InTransaction(s.calls[d]) :: Holds(s', d)
    ensures Inv(s')
  {
    hide StoreState.Valid, RunOk, CallOk, ResolvedOk, DirtyOk, OwnersDistinct, KeysUnique, SameIdentity, RunScope;
    RunsStayOk(s, s', t);
    forall d | d in s'.calls ensures CallOk(s', d) && ResolvedOk(s', d) {
      if Some(d) != c {
        assert CallOk(s, d) && ResolvedOk(s, d);
        CallStaysOk(s, s', c, t, d);
        ResolvedStaysOk(s, s', c, t, d);
      }
    }
    OwnersStayDistinct(s, s', c, t);
    KeysStayUnique(s, s', t);
  }

  /** What must hold again of the run a step changed. */
  ghost predicate TouchOk(s: State, s': State, c: Option<CallId>, t: Option<Text>) {
    t.Some? ==>
      && (forall d | d in s.calls && Some(d) != c :: Owned(s.calls[d]) != t)
      && t.value in Base(s').runs && t.value in s'.history
      && RunOk(Base(s').runs[t.value], s'.history[t.value], s'.clock)
      && (if t.value in Base(s).runs then
            && Base(s).runs[t.value].status != UndoFailed
            && SameIdentity(Base(s').runs[t.value], Base(s).runs[t.value])
          else
            Base(s').runs[t.value].idempotencyKey.Some? ==>
            forall id | id in Base(s).runs ::
              RunScope(Base(s).runs[id]) != RunScope(Base(s').runs[t.value]))
  }

  /** What must hold again of the call that took the step. */
  ghost predicate ActorOk(s: State, s': State, c: CallId, t: Option<Text>) {
    && c in s'.calls && CallOk(s', c) && ResolvedOk(s', c)
    && (Owned(s'.calls[c]).Some? ==>
          || Owned(s'.calls[c]) == t
          || (c in s.calls && Owned(s'.calls[c]) == Owned(s.calls[c])))
    && (InTransaction(s'.calls[c]) ==> Holds(s', c))
  }

  lemma OwnersStayDistinct(s: State, s': State, c: Option<CallId>, t: Option<Text>)
    requires OwnersDistinct(s) && OthersStay(s, s', c)
    requires t.Some? ==> forall d | d in s.calls && Some(d) != c :: Owned(s.calls[d]) != t
    requires c.Some? ==> c.value in s'.calls
    requires c.Some? && Owned(s'.calls[c.value]).Some? ==>
      || Owned(s'.calls[c.value]) == t
      || (c.value in s.calls && Owned(s'.calls[c.value]) == Owned(s.calls[c.value]))
    ensures OwnersDistinct(s')
  {
  }

  lemma KeysStayUnique(s: State, s': State, t: Option<Text>)
    requires KeysUnique(Base(s).runs) && Touches(s, s', t)
    requires t.Some? && t.value in Base(s).runs ==>
      t.value in Base(s').runs && SameIdentity(Base(s').runs[t.value], Base(s).runs[t.value])
    requires t.Some? && t.value in Base(s').runs && t.value !in Base(s).runs &&
             Base(s').runs[t.value].idempotencyKey.Some? ==>
      forall id | id in Base(s).runs ::
        RunScope(Base(s).runs[id]) != RunScope(Base(s').runs[t.value])
    ensures KeysUnique(Base(s').runs)
  {
    var runs, runs' := Base(s).runs, Base(s').runs;
    forall a, b | a in runs' && b in runs' && a != b && runs'[a].idempotencyKey.Some?
      ensures RunScope(runs'[a]) != RunScope(runs'[b])
    {
      if a in runs && b in runs {
        assert RunScope(runs'[a]) == RunScope(runs[a]);
        assert RunScope(runs'[b]) == RunScope(runs[b]);
      } else if a in runs {
        assert RunScope(runs'[a]) == RunScope(runs[a]);
        assert RunScope(runs'[a]).key == runs'[a].idempotencyKey;
        assert RunScope(runs'[b]).key == runs'[b].idempotencyKey;
      } else {
        assert RunScope(runs'[b]) == RunScope(runs[b]);
      }
    }
  }
}
