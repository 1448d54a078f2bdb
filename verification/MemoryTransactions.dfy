/** Transactions over the in-memory store: what every schedule of them keeps, aborts included. */
module MemoryTransactions {
  import opened Prelude
  import opened JsonText
  import opened Lifecycle
  import opened StoreState
  import opened MemoryStorage
  import opened TransactionLock

  /** A write method of the adapter with its arguments; `now` is the clock it reads. */
  datatype Write =
    | CreateActionRun(create: CreateInput, now: int)
    | ClaimActionRun(create: CreateInput, key: Text, now: int)
    | UpdateActionRun(id: Text, update: UpdateInput)
    | SaveSnapshot(id: Text, snapshot: SnapshotBody, now: int)
    | RecordSideEffect(id: Text, effect: EffectBody, now: int)
    | RecordConflict(id: Text, conflict: ConflictBody, now: int)

  datatype Answer =
    | GotRun(run: ActionRun, created: bool)
    | GotSnapshot(snapshot: Child<SnapshotBody>)
    | GotEffect(effect: Child<EffectBody>)
    | GotConflict(conflict: Child<ConflictBody>)
    | Rejected(error: ErrorCode)

  /** A rejected write leaves the store as it is. */
  function Perform(w: Write, st: Store): (Store, Answer) {
    match w
    case CreateActionRun(input, now) =>
      (match CreateRun(st, input, now)
       case Ok((after, run)) => (after, GotRun(run, true))
       case Err(e) => (st, Rejected(e)))
    case ClaimActionRun(input, key, now) =>
      (match ClaimRun(st, input.(idempotencyKey := Some(key)), now)
       case Ok((after, run, created)) => (after, GotRun(run, created))
       case Err(e) => (st, Rejected(e)))
    case UpdateActionRun(id, u) =>
      (match UpdateRun(st, id, u)
       case Ok((after, run)) => (after, GotRun(run, false))
       case Err(e) => (st, Rejected(e)))
    case SaveSnapshot(id, body, now) =>
      (match StoreState.SaveSnapshot(st, id, body, now)
       case Ok((after, child)) => (after, GotSnapshot(child))
       case Err(e) => (st, Rejected(e)))
    case RecordSideEffect(id, body, now) =>
      (match RecordEffect(st, id, body, now)
       case Ok((after, child)) => (after, GotEffect(child))
       case Err(e) => (st, Rejected(e)))
    case RecordConflict(id, body, now) =>
      (match StoreState.RecordConflict(st, id, body, now)
       case Ok((after, child)) => (after, GotConflict(child))
       case Err(e) => (st, Rejected(e)))
  }

  /** What a handler does next, given the answers so far: any program over the adapter's writes. */
  datatype Move = Call(write: Write) | Finish | Fail

  type Program = seq<Answer> -> Move

  function HandlerOf(p: Program): Handler<Store, Answer> {
    seen =>
      match p(seen)
      case Call(w) => Do((st: Store) => Perform(w, st))
      case Finish => Return
      case Fail => Throw
  }

  /** What a write answers: the new run, record or refusal, each with exactly the content given. */
  lemma PerformAnswers(w: Write, st: Store)
    ensures Perform(w, st).1.Rejected? ==> Perform(w, st).0 == st
    ensures w.CreateActionRun? && Perform(w, st).1.GotRun? ==>
      Perform(w, st).1.created && MadeFor(Perform(w, st).1.run, w.create, w.now)
    ensures w.ClaimActionRun? && Perform(w, st).1.GotRun? && Perform(w, st).1.created ==>
      MadeFor(Perform(w, st).1.run, w.create.(idempotencyKey := Some(w.key)), w.now)
    ensures w.ClaimActionRun? && Perform(w, st).1.GotRun? && !Perform(w, st).1.created ==> Perform(w, st).0 == st
    ensures w.UpdateActionRun? ==> (Perform(w, st).1.GotRun? <==> w.id in st.runs)
    ensures w.UpdateActionRun? && w.id in st.runs ==> UpdatedBy(st.runs[w.id], w.update, Perform(w, st).1.run)
    ensures w.SaveSnapshot? ==> (Perform(w, st).1.GotSnapshot? <==> w.id in st.runs)
    ensures w.SaveSnapshot? && w.id in st.runs ==>
      OneMore(st.snapshots, Perform(w, st).0.snapshots, Perform(w, st).1.snapshot, w.id, w.snapshot, w.now)
    ensures w.RecordSideEffect? ==> (Perform(w, st).1.GotEffect? <==> w.id in st.runs)
    ensures w.RecordSideEffect? && w.id in st.runs ==>
      OneMore(st.effects, Perform(w, st).0.effects, Perform(w, st).1.effect, w.id, w.effect, w.now)
    ensures w.RecordConflict? ==> (Perform(w, st).1.GotConflict? <==> w.id in st.runs)
    ensures w.RecordConflict? && w.id in st.runs ==>
      OneMore(st.conflicts, Perform(w, st).0.conflicts, Perform(w, st).1.conflict, w.id, w.conflict, w.now)
  {
    hide FindScope, KeyFits;
  }

  lemma PerformKeepsValid(w: Write, st: Store)
    requires StoreState.Valid(st)
    ensures StoreState.Valid(Perform(w, st).0) && Perform(w, st).0.prefix == st.prefix
  {
    hide StoreState.Valid, FindScope;
    match w
    case CreateActionRun(input, now) => CreateRunKeepsValid(st, input, now);
    case ClaimActionRun(input, key, now) =>
      CreateRunKeepsValid(st, input.(idempotencyKey := Some(key)), now);
    case UpdateActionRun(id, u) => UpdateRunKeepsValid(st, id, u);
    case SaveSnapshot(id, body, now) => SaveSnapshotKeepsValid(st, id, body, now);
    case RecordSideEffect(id, body, now) => RecordEffectKeepsValid(st, id, body, now);
    case RecordConflict(id, body, now) => RecordConflictKeepsValid(st, id, body, now);
  }

  // ---------------------------------------------------------------- what every operation keeps

  /** No operation of the handler ever breaks `p`. */
  ghost predicate Keeps<S(!new), R(!new)>(h: Handler<S, R>, p: S -> bool) {
    forall seen: seq<R>, st: S :: h(seen).Do? && p(st) ==> p(h(seen).op(st).0)
  }

  ghost predicate AllKeep<S(!new), R(!new)>(l: Lock<S, R>, p: S -> bool) {
    && p(l.store)
    && forall i | 0 <= i < |l.tickets| ::
         Keeps(l.tickets[i].handler, p) && (l.tickets[i].phase.Open? ==> p(l.tickets[i].phase.saved))
  }

  lemma ApplyKeepsAll<S(!new), R(!new)>(l: Lock<S, R>, e: Event<S, R>, p: S -> bool)
    requires AllKeep(l, p) && TransactionLock.Apply(l, e).Some?
    requires e.Arrive? ==> Keeps(e.handler, p)
    ensures AllKeep(TransactionLock.Apply(l, e).value, p)
  {
    hide TransactionLock.Resolved, Keeps;
    if e.Operate? {
      OperateKeeps(l, e.ticket, p);
    }
  }

  lemma OperateKeeps<S(!new), R(!new)>(l: Lock<S, R>, t: nat, p: S -> bool)
    requires t < |l.tickets| && Keeps(l.tickets[t].handler, p) && p(l.store)
    requires l.tickets[t].handler(l.tickets[t].seen).Do?
    ensures p(l.tickets[t].handler(l.tickets[t].seen).op(l.store).0)
  {
  }

  lemma {:induction false} RunKeepsAll<S(!new), R(!new)>(l: Lock<S, R>, events: seq<Event<S, R>>, p: S -> bool)
    requires AllKeep(l, p) && TransactionLock.Run(l, events).Some?
    requires forall e | e in events && e.Arrive? :: Keeps(e.handler, p)
    ensures AllKeep(TransactionLock.Run(l, events).value, p)
    decreases |events|
  {
    hide AllKeep, Keeps, TransactionLock.Apply;
    if events != [] {
      assert events[0] in events;
      ApplyKeepsAll(l, events[0], p);
      forall e | e in events[1..] && e.Arrive? ensures Keeps(e.handler, p) {
        assert e in events;
      }
      RunKeepsAll(TransactionLock.Apply(l, events[0]).value, events[1..], p);
    }
  }

  lemma ProgramKeepsValid(program: Program)
    ensures Keeps(HandlerOf(program), (st: Store) => StoreState.Valid(st))
  {
    hide StoreState.Valid, Perform;
    forall seen: seq<Answer>, st: Store | HandlerOf(program)(seen).Do? && StoreState.Valid(st)
      ensures StoreState.Valid(HandlerOf(program)(seen).op(st).0)
    {
      PerformKeepsValid(program(seen).write, st);
    }
  }

  /**
   The representation invariant at every moment of every schedule of transactions and single
   writes, whatever the handlers do and whichever of them throw: ids are distinct and numbered below
   the counter, and each list of records belongs to an existing run and holds only its records.
   */
  lemma StoreStaysValid(prefix: Text, events: seq<Event<Store, Answer>>)
    requires TransactionLock.Run(TransactionLock.Start(Empty(prefix)), events).Some?
    requires forall e | e in events && e.Arrive? :: exists program :: e.handler == HandlerOf(program)
    ensures StoreState.Valid(TransactionLock.Run(TransactionLock.Start(Empty(prefix)), events).value.store)
  {
    hide StoreState.Valid, HandlerOf, Keeps, TransactionLock.Run;
    var p := (st: Store) => StoreState.Valid(st);
    EmptyValid(prefix);
    forall e | e in events && e.Arrive? ensures Keeps(e.handler, p) {
      var program :| e.handler == HandlerOf(program);
      ProgramKeepsValid(program);
      assert Keeps(HandlerOf(program), (st: Store) => StoreState.Valid(st));
      SameKeeps(HandlerOf(program), (st: Store) => StoreState.Valid(st), p);
    }
    RunKeepsAll(TransactionLock.Start(Empty(prefix)), events, p);
  }

  lemma SameKeeps<S(!new), R(!new)>(h: Handler<S, R>, p: S -> bool, q: S -> bool)
    requires Keeps(h, p) && forall st :: p(st) == q(st)
    ensures Keeps(h, q)
  {
    forall seen: seq<R>, st: S | h(seen).Do? && q(st) ensures q(h(seen).op(st).0) {
      assert p(st);
    }
  }

  // ---------------------------------------------------------------- the adapter itself

  /** The store after some writes, one after another. */
  function PerformAll(writes: seq<Write>, st: Store): Store {
    if writes == [] then st
    else
      var n := |writes| - 1;
      Perform(writes[n], PerformAll(writes[..n], st)).0
  }

  method CallWrite(storage: MemoryStorageAdapter, w: Write) returns (answer: Answer)
    requires storage.Valid()
    modifies storage
    ensures storage.Valid() && (storage.State(), answer) == Perform(w, old(storage.State()))
  {
    hide StoreState.Valid;
    match w
    case CreateActionRun(input, now) =>
      var r := storage.CreateActionRun(input, now);
      answer := if r.Ok? then GotRun(r.value, true) else Rejected(r.error);
    case ClaimActionRun(input, key, now) =>
      var r := storage.ClaimActionRun(input.(idempotencyKey := Some(key)), now);
      answer := if r.Ok? then GotRun(r.value.0, r.value.1) else Rejected(r.error);
    case UpdateActionRun(id, u) =>
      var r := storage.UpdateActionRun(id, u);
      answer := if r.Ok? then GotRun(r.value, false) else Rejected(r.error);
    case SaveSnapshot(id, body, now) =>
      var r := storage.SaveSnapshot(id, body, now);
      answer := if r.Ok? then GotSnapshot(r.value) else Rejected(r.error);
    case RecordSideEffect(id, body, now) =>
      var r := storage.RecordSideEffect(id, body, now);
      answer := if r.Ok? then GotEffect(r.value) else Rejected(r.error);
    case RecordConflict(id, body, now) =>
      var r := storage.RecordConflict(id, body, now);
      answer := if r.Ok? then GotConflict(r.value) else Rejected(r.error);
  }

  /**
   A transaction on the adapter: capture, the handler's writes, and a restore if it throws. Thrown,
   it leaves the whole state as it was, the counter included; returned, it leaves all its writes.
   */
  method RunTransaction(storage: MemoryStorageAdapter, writes: seq<Write>, throws: bool)
    requires storage.Valid()
    modifies storage
    ensures storage.Valid()
    ensures storage.State() == if throws then old(storage.State()) else PerformAll(writes, old(storage.State()))
  {
    hide StoreState.Valid, Perform;
    ghost var before := storage.State();
    var saved := storage.CaptureState();
    var i := 0;
    while i < |writes|
      invariant 0 <= i <= |writes| && storage.Valid()
      invariant storage.State() == PerformAll(writes[..i], before)
    {
      assert writes[..i + 1][..i] == writes[..i];
      var answer := CallWrite(storage, writes[i]);
      i := i + 1;
    }
    assert writes[..i] == writes;
    if throws {
      storage.RestoreState(saved);
    }
  }

  /**
   The life of a deferred recorder: whatever is recorded, and whatever a transaction does to the
   store and takes back meanwhile, flushing stores all of it, in order, after what was there.
   */
  method DeferConflicts(storage: MemoryStorageAdapter, runId: Text, bodies: seq<ConflictBody>, writes: seq<Write>,
                        now: nat -> int)
    returns (any: bool)
    requires storage.Valid() && runId in storage.actionRuns
    modifies storage
    ensures storage.Valid() && (any <==> bodies != [])
    ensures ConflictsAppended(old(storage.State()), storage.State(), runId, bodies)
  {
    hide StoreState.Valid, ConflictsAppended, RecordAll;
    ghost var before := storage.State();
    var recorder := new DeferredConflictRecorder(runId);
    var i := 0;
    while i < |bodies|
      invariant 0 <= i <= |bodies| && recorder.records == bodies[..i]
      invariant storage.Valid() && storage.State() == before && fresh(recorder)
    {
      recorder.Record(bodies[i]);
      i := i + 1;
    }
    assert bodies[..i] == bodies;
    RunTransaction(storage, writes, true);
    any := recorder.HasRecords();
    recorder.Flush(storage, now);
    RecordAllAppends(before, runId, bodies, now);
  }
}
