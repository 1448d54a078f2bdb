/** The in-memory storage adapter, updated in place, against the store value it represents. */
module MemoryStorage {
  import opened Prelude
  import opened JsonText
  import opened Lifecycle
  import opened StoreState

  class MemoryStorageAdapter {
    const idPrefix: Text
    var nextId: nat
    var actionRuns: map<Text, ActionRun>
    var runOrder: seq<Text>
    var snapshotsByRun: map<Text, seq<Child<SnapshotBody>>>
    var effectsByRun: map<Text, seq<Child<EffectBody>>>
    var conflictsByRun: map<Text, seq<Child<ConflictBody>>>

    /** The store this object stands for. */
    ghost function State(): Store
      reads this
    {
      Store(idPrefix, nextId, actionRuns, runOrder, snapshotsByRun, effectsByRun, conflictsByRun)
    }

    ghost predicate Valid()
      reads this
    {
      StoreState.Valid(State())
    }

    constructor (prefix: Text)
      ensures Valid() && State() == Empty(prefix)
      ensures idPrefix == prefix && nextId == 1 && actionRuns == map[] && runOrder == []
      ensures snapshotsByRun == map[] && effectsByRun == map[] && conflictsByRun == map[]
    {
      idPrefix := prefix;
      nextId := 1;
      actionRuns, runOrder := map[], [];
      snapshotsByRun, effectsByRun, conflictsByRun := map[], map[], map[];
      new;
      EmptyValid(prefix);
    }

    method CreateId(kind: Kind) returns (id: Text)
      modifies this`nextId
      ensures id == MakeId(idPrefix, kind, old(nextId))
      ensures State() == old(State()).(nextId := old(nextId) + 1)
    {
      id := MakeId(idPrefix, kind, nextId);
      nextId := nextId + 1;
    }

    method CreateActionRun(input: CreateInput, now: int) returns (r: Result<ActionRun, ErrorCode>)
      requires Valid()
      modifies this
      ensures Valid()
      ensures match CreateRun(old(State()), input, now)
        case Ok((store, run)) => State() == store && r == Ok(run) && run.id !in old(actionRuns)
        case Err(e) => State() == old(State()) && r == Err(e)
      ensures r.Ok? ==> MadeFor(r.value, input, now) && actionRuns == old(actionRuns)[r.value.id := r.value]
      ensures r.Err? ==> r.error == ACTION_INPUT_INVALID && !KeyFits(input.idempotencyKey.value)
    {
      hide StoreState.Valid;
      CreateRunKeepsValid(State(), input, now);
      if input.idempotencyKey.Some? && !KeyFits(input.idempotencyKey.value) {
        return Err(ACTION_INPUT_INVALID);
      }
      var id := CreateId(RunId);
      var run := NewRun(input, id, now);
      if id !in actionRuns {
        runOrder := runOrder + [id];
      }
      actionRuns := actionRuns[id := run];
      r := Ok(run);
    }

    /** The scan over the run map in insertion order. */
    method FindClaimed(scope: Scope) returns (found: Option<ActionRun>)
      requires Valid()
      ensures found == FindScope(runOrder, actionRuns, scope)
      ensures found.None? <==> forall id | id in actionRuns :: RunScope(actionRuns[id]) != scope
    {
      FindScopeDecides(State(), scope);
      var i := 0;
      while i < |runOrder|
        invariant 0 <= i <= |runOrder|
        invariant FindScope(runOrder[i..], actionRuns, scope) == FindScope(runOrder, actionRuns, scope)
      {
        assert runOrder[i] in runOrder;
        var run := actionRuns[runOrder[i]];
        if RunScope(run) == scope {
          return Some(run);
        }
        assert runOrder[i..][1..] == runOrder[i + 1..];
        i := i + 1;
      }
      found := None;
    }

    method ClaimActionRun(input: CreateInput, now: int)
      returns (r: Result<(ActionRun, bool), ErrorCode>)
      requires Valid() && input.idempotencyKey.Some?
      modifies this
      ensures Valid()
      ensures match ClaimRun(old(State()), input, now)
        case Ok((store, run, created)) => State() == store && r == Ok((run, created))
        case Err(e) => State() == old(State()) && r == Err(e)
      ensures r.Ok? && r.value.1 ==>
        MadeFor(r.value.0, input, now) && actionRuns == old(actionRuns)[r.value.0.id := r.value.0]
      ensures r.Ok? && !r.value.1 ==>
        RunScope(r.value.0) == InputScope(input) && State() == old(State()) && r.value.0.id in actionRuns
        && actionRuns[r.value.0.id] == r.value.0
      ensures r.Err? ==> r.error == ACTION_INPUT_INVALID
    {
      FindScopeDecides(State(), InputScope(input));
      if !KeyFits(input.idempotencyKey.value) {
        return Err(ACTION_INPUT_INVALID);
      }
      var existing := FindClaimed(InputScope(input));
      if existing.Some? {
        return Ok((existing.value, false));
      }
      var created := CreateActionRun(input, now);
      match created
      case Ok(run) => r := Ok((run, true));
      case Err(e) => r := Err(e);
    }

    method GetActionRun(id: Text) returns (r: Option<ActionRun>)
      requires Valid()
      ensures r.Some? <==> id in actionRuns
      ensures r.Some? ==> r.value == actionRuns[id] && r.value.id == id
    {
      r := if id in actionRuns then Some(actionRuns[id]) else None;
    }

    method UpdateActionRun(id: Text, input: UpdateInput) returns (r: Result<ActionRun, ErrorCode>)
      requires Valid()
      modifies this`actionRuns
      ensures Valid()
      ensures match UpdateRun(old(State()), id, input)
        case Ok((store, run)) => State() == store && r == Ok(run)
        case Err(e) => State() == old(State()) && r == Err(e)
      ensures if id in old(actionRuns) then r.Ok? && UpdatedBy(old(actionRuns)[id], input, r.value)
        else r == Err(ACTION_NOT_FOUND)
    {
      hide StoreState.Valid;
      UpdateRunKeepsValid(State(), id, input);
      if id !in actionRuns {
        return Err(ACTION_NOT_FOUND);
      }
      var updated := Merge(actionRuns[id], input);
      actionRuns := actionRuns[id := updated];
      r := Ok(updated);
    }

    method SaveSnapshot(runId: Text, body: SnapshotBody, now: int)
      returns (r: Result<Child<SnapshotBody>, ErrorCode>)
      requires Valid()
      modifies this`nextId, this`snapshotsByRun
      ensures Valid()
      ensures match StoreState.SaveSnapshot(old(State()), runId, body, now)
        case Ok((store, child)) => State() == store && r == Ok(child)
        case Err(e) => State() == old(State()) && r == Err(e)
      ensures if runId in actionRuns
        then r.Ok? && OneMore(old(snapshotsByRun), snapshotsByRun, r.value, runId, body, now)
        else r == Err(ACTION_NOT_FOUND)
    {
      hide StoreState.Valid;
      SaveSnapshotKeepsValid(State(), runId, body, now);
      if runId !in actionRuns {
        return Err(ACTION_NOT_FOUND);
      }
      var id := CreateId(SnapshotId);
      var snapshot := Child(id, runId, now, body);
      var snapshots := if runId in snapshotsByRun then snapshotsByRun[runId] else [];
      snapshotsByRun := snapshotsByRun[runId := snapshots + [snapshot]];
      r := Ok(snapshot);
    }

    method RecordSideEffect(runId: Text, body: EffectBody, now: int)
      returns (r: Result<Child<EffectBody>, ErrorCode>)
      requires Valid()
      modifies this`nextId, this`effectsByRun
      ensures Valid()
      ensures match RecordEffect(old(State()), runId, body, now)
        case Ok((store, child)) => State() == store && r == Ok(child)
        case Err(e) => State() == old(State()) && r == Err(e)
      ensures if runId in actionRuns
        then r.Ok? && OneMore(old(effectsByRun), effectsByRun, r.value, runId, body, now)
        else r == Err(ACTION_NOT_FOUND)
    {
      hide StoreState.Valid;
      RecordEffectKeepsValid(State(), runId, body, now);
      if runId !in actionRuns {
        return Err(ACTION_NOT_FOUND);
      }
      var id := CreateId(EffectId);
      var effect := Child(id, runId, now, body);
      var effects := if runId in effectsByRun then effectsByRun[runId] else [];
      effectsByRun := effectsByRun[runId := effects + [effect]];
      r := Ok(effect);
    }

    method RecordConflict(runId: Text, body: ConflictBody, now: int)
      returns (r: Result<Child<ConflictBody>, ErrorCode>)
      requires Valid()
      modifies this`nextId, this`conflictsByRun
      ensures Valid()
      ensures match StoreState.RecordConflict(old(State()), runId, body, now)
        case Ok((store, child)) => State() == store && r == Ok(child)
        case Err(e) => State() == old(State()) && r == Err(e)
      ensures if runId in actionRuns
        then r.Ok? && OneMore(old(conflictsByRun), conflictsByRun, r.value, runId, body, now)
        else r == Err(ACTION_NOT_FOUND)
    {
      hide StoreState.Valid;
      RecordConflictKeepsValid(State(), runId, body, now);
      if runId !in actionRuns {
        return Err(ACTION_NOT_FOUND);
      }
      var id := CreateId(ConflictId);
      var conflict := Child(id, runId, now, body);
      var conflicts := if runId in conflictsByRun then conflictsByRun[runId] else [];
      conflictsByRun := conflictsByRun[runId := conflicts + [conflict]];
      r := Ok(conflict);
    }

    method GetSnapshots(runId: Text) returns (r: seq<Child<SnapshotBody>>)
      ensures r == ChildrenOf(snapshotsByRun, runId)
    {
      r := if runId in snapshotsByRun then snapshotsByRun[runId] else [];
    }

    method GetConflicts(q: RecordQuery) returns (r: Result<seq<Child<ConflictBody>>, ErrorCode>)
      ensures r == ReadChildren(State(), conflictsByRun, q)
      ensures r.Err? <==> q.tenantId.None? && (q.actorId.None? || q.actorType.None?)
      ensures r.Err? ==> r.error == ACTION_PERMISSION_DENIED
      ensures r.Ok? ==>
        var id := q.actionRunId;
        var own := id in actionRuns && (q.tenantId.Some? ==> actionRuns[id].tenantId == q.tenantId)
          && (q.actorId.Some? ==> actionRuns[id].actor.id == q.actorId.value)
          && (q.actorType.Some? ==> actionRuns[id].actor.kind == q.actorType.value);
        r.value == if own && id in conflictsByRun then conflictsByRun[id] else []
    {
      if q.tenantId.None? && (q.actorId.None? || q.actorType.None?) {
        return Err(ACTION_PERMISSION_DENIED);
      }
      if q.actionRunId !in actionRuns {
        return Ok([]);
      }
      var run := actionRuns[q.actionRunId];
      if (q.tenantId.Some? && run.tenantId != q.tenantId)
         || (q.actorId.Some? && run.actor.id != q.actorId.value)
         || (q.actorType.Some? && run.actor.kind != q.actorType.value) {
        return Ok([]);
      }
      r := Ok(if q.actionRunId in conflictsByRun then conflictsByRun[q.actionRunId] else []);
    }

    /** The state a transaction remembers when it starts. */
    method CaptureState() returns (saved: Store)
      ensures saved == State()
    {
      saved := Store(idPrefix, nextId, actionRuns, runOrder, snapshotsByRun, effectsByRun, conflictsByRun);
    }

    /** Put back what a transaction captured. */
    method RestoreState(saved: Store)
      requires saved.prefix == idPrefix && StoreState.Valid(saved)
      modifies this
      ensures Valid() && State() == saved
    {
      nextId := saved.nextId;
      actionRuns, runOrder := saved.runs, saved.order;
      snapshotsByRun := saved.snapshots;
      effectsByRun := saved.effects;
      conflictsByRun := saved.conflicts;
    }
  }

  // ---------------------------------------------------------------- recorders bound to a run

  /** Conflicts recorded during an undo, kept outside its transaction until they are flushed. */
  class DeferredConflictRecorder {
    const actionRunId: Text
    var records: seq<ConflictBody>

    constructor (actionRunId: Text)
      ensures this.actionRunId == actionRunId && records == []
    {
      this.actionRunId := actionRunId;
      records := [];
    }

    method Record(body: ConflictBody)
      modifies this
      ensures records == old(records) + [body]
    {
      records := records + [body];
    }

    method HasRecords() returns (b: bool)
      ensures b <==> records != []
    {
      b := |records| > 0;
    }

    /** Empty the recorder and store what it held, in order; `now(i)` is the clock at record `i`. */
    method Flush(storage: MemoryStorageAdapter, now: nat -> int)
      requires storage.Valid() && actionRunId in storage.actionRuns
      modifies this, storage
      ensures storage.Valid() && records == []
      ensures storage.State() == RecordAll(old(storage.State()), actionRunId, old(records), now)
    {
      hide StoreState.Valid, StoreState.RecordConflict, RecordAll;
      var pending := records;
      ghost var before := storage.State();
      records := [];
      var i := 0;
      RecordNone(before, actionRunId, now);
      while i < |pending|
        invariant 0 <= i <= |pending| && records == []
        invariant storage.Valid() && actionRunId in storage.actionRuns
        invariant storage.State() == RecordAll(before, actionRunId, pending[..i], now)
      {
        RecordNext(before, actionRunId, pending, i, now);
        var stored := storage.RecordConflict(actionRunId, pending[i], now(i));
        i := i + 1;
      }
      assert pending[..i] == pending;
    }
  }

  /** Record each body in order, skipping what the store refuses. */
  ghost function RecordAll(st: Store, runId: Text, bodies: seq<ConflictBody>, now: nat -> int): Store {
    if bodies == [] then st
    else
      var n := |bodies| - 1;
      var before := RecordAll(st, runId, bodies[..n], now);
      match StoreState.RecordConflict(before, runId, bodies[n], now(n))
      case Ok((store, _)) => store
      case Err(_) => before
  }

  lemma RecordNone(st: Store, runId: Text, now: nat -> int)
    ensures RecordAll(st, runId, [], now) == st
  {
  }

  lemma RecordNext(st: Store, runId: Text, bodies: seq<ConflictBody>, i: nat, now: nat -> int)
    requires i < |bodies|
    ensures RecordAll(st, runId, bodies[..i + 1], now)
         == match StoreState.RecordConflict(RecordAll(st, runId, bodies[..i], now), runId, bodies[i], now(i))
            case Ok((store, _)) => store
            case Err(_) => RecordAll(st, runId, bodies[..i], now)
  {
    hide StoreState.RecordConflict;
    assert bodies[..i + 1][..i] == bodies[..i];
  }

  /** Flushing appends exactly the recorded conflicts, in order, after those already stored. */
  lemma {:induction false} RecordAllAppends(st: Store, runId: Text, bodies: seq<ConflictBody>,
                                           now: nat -> int)
    requires runId in st.runs
    ensures ConflictsAppended(st, RecordAll(st, runId, bodies, now), runId, bodies)
    decreases |bodies|
  {
    if bodies == [] {
      AppendNothing(st, runId);
    } else {
      var n := |bodies| - 1;
      var before := RecordAll(st, runId, bodies[..n], now);
      RecordNext(st, runId, bodies, n, now);
      assert bodies[..n + 1] == bodies;
      hide RecordAll, StoreState.RecordConflict, ConflictsAppended;
      RecordAllAppends(st, runId, bodies[..n], now);
      AppendedKeepsRuns(st, before, runId, bodies[..n]);
      RecordOneAppends(before, runId, bodies[n], now(n));
      AppendMore(st, before, RecordAll(st, runId, bodies, now), runId, bodies[..n], [bodies[n]]);
      assert bodies[..n] + [bodies[n]] == bodies;
    }
  }

  /** `get` of the bound snapshot reader: the newest snapshot with the key. */
  method LatestSnapshot(storage: MemoryStorageAdapter, runId: Text, key: Text)
    returns (r: Option<Child<SnapshotBody>>)
    ensures r.None? <==> forall i :: 0 <= i < |ChildrenOf(storage.snapshotsByRun, runId)| ==>
      ChildrenOf(storage.snapshotsByRun, runId)[i].body.key != key
    ensures r.Some? ==>
      var list := ChildrenOf(storage.snapshotsByRun, runId);
      exists i :: 0 <= i < |list| && list[i] == r.value && list[i].body.key == key &&
        forall j :: i < j < |list| ==> list[j].body.key != key
  {
    var list := storage.GetSnapshots(runId);
    var i := |list|;
    while i > 0
      invariant 0 <= i <= |list|
      invariant forall j :: i <= j < |list| ==> list[j].body.key != key
    {
      i := i - 1;
      if list[i].body.key == key {
        return Some(list[i]);
      }
    }
    r := None;
  }

  /** Saving makes the saved value the latest for its key. */
  method SaveThenGet(storage: MemoryStorageAdapter, runId: Text, body: SnapshotBody, now: int)
    returns (r: Option<Child<SnapshotBody>>)
    requires storage.Valid() && runId in storage.actionRuns
    modifies storage
    ensures storage.Valid()
    ensures r.Some? && r.value.body == body && r.value.actionRunId == runId
  {
    var saved := storage.SaveSnapshot(runId, body, now);
    r := LatestSnapshot(storage, runId, body.key);
    var list := ChildrenOf(storage.snapshotsByRun, runId);
    assert list[|list| - 1].body == body;
  }
}
