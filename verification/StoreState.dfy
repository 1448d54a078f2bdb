/**
 The contents of the in-memory store as a value, the effect of each write on it, and the
 representation invariant every write keeps.
 */
module StoreState {
  import opened Prelude
  import opened JsonText
  import opened Lifecycle

  datatype Kind = RunId | SnapshotId | EffectId | ConflictId

  type Children<T> = map<Text, seq<Child<T>>>

  /** `order` is the insertion order of the run map. */
  datatype Store = Store(
    prefix: Text,
    nextId: nat,
    runs: map<Text, ActionRun>,
    order: seq<Text>,
    snapshots: Children<SnapshotBody>,
    effects: Children<EffectBody>,
    conflicts: Children<ConflictBody>)

  function Empty(prefix: Text): Store {
    Store(prefix, 1, map[], [], map[], map[], map[])
  }

  // ---------------------------------------------------------------- identifiers

  function Decimal(n: nat): Text
    decreases n
  {
    if n < 10 then [0x30 + n] else Decimal(n / 10) + [0x30 + n % 10]
  }

  function ReadDecimal(t: Text): int {
    if t == [] then 0 else ReadDecimal(t[..|t| - 1]) * 10 + (t[|t| - 1] as int - 0x30)
  }

  lemma {:induction false} DecimalReadsBack(n: nat)
    ensures ReadDecimal(Decimal(n)) == n
    decreases n
  {
    if n < 10 {
      assert Decimal(n)[..0] == [];
    } else {
      DecimalReadsBack(n / 10);
      assert Decimal(n)[..|Decimal(n)| - 1] == Decimal(n / 10);
    }
  }

  function Tag(kind: Kind): Text {
    match kind
    case RunId => [0x72, 0x75, 0x6E, 0x5F]
    case SnapshotId => [0x73, 0x6E, 0x61, 0x70, 0x73, 0x68, 0x6F, 0x74, 0x5F]
    case EffectId => [0x65, 0x66, 0x66, 0x65, 0x63, 0x74, 0x5F]
    case ConflictId => [0x63, 0x6F, 0x6E, 0x66, 0x6C, 0x69, 0x63, 0x74, 0x5F]
  }

  function MakeId(prefix: Text, kind: Kind, n: nat): Text {
    prefix + Tag(kind) + Decimal(n)
  }

  /** Two generated identifiers agree only if they have the same kind and number. */
  lemma MakeIdInjective(prefix: Text, k1: Kind, n1: nat, k2: Kind, n2: nat)
    requires MakeId(prefix, k1, n1) == MakeId(prefix, k2, n2)
    ensures k1 == k2 && n1 == n2
  {
    var p := |prefix|;
    assert MakeId(prefix, k1, n1)[p] == Tag(k1)[0];
    assert MakeId(prefix, k2, n2)[p] == Tag(k2)[0];
    assert k1 == k2;
    var q := p + |Tag(k1)|;
    assert MakeId(prefix, k1, n1)[q..] == Decimal(n1);
    assert MakeId(prefix, k2, n2)[q..] == Decimal(n2);
    DecimalReadsBack(n1);
    DecimalReadsBack(n2);
  }

  /** How identifiers are spelled: the prefix, the kind's name and the number in decimal. */
  lemma KnownIds(prefix: Text)
    ensures MakeId(prefix, RunId, 1) == prefix + Ascii("run_1")
    ensures MakeId(prefix, SnapshotId, 20) == prefix + Ascii("snapshot_20")
    ensures MakeId(prefix, EffectId, 3) == prefix + Ascii("effect_3")
    ensures MakeId(prefix, ConflictId, 4) == prefix + Ascii("conflict_4")
  {
    assert Decimal(20) == Decimal(2) + [0x30];
    assert Tag(RunId) == Ascii("run_") && Tag(SnapshotId) == Ascii("snapshot_");
    assert Tag(EffectId) == Ascii("effect_") && Tag(ConflictId) == Ascii("conflict_");
  }

  /** The identifier was generated with a number below `limit`. */
  ghost predicate Issued(prefix: Text, kind: Kind, id: Text, limit: nat) {
    exists n: nat :: n < limit && id == MakeId(prefix, kind, n)
  }

  lemma IssuedIsOld(prefix: Text, kind: Kind, id: Text, limit: nat, kind': Kind, n: nat)
    requires Issued(prefix, kind, id, limit) && limit <= n
    ensures id != MakeId(prefix, kind', n)
  {
    var m: nat :| m < limit && id == MakeId(prefix, kind, m);
    if id == MakeId(prefix, kind', n) {
      MakeIdInjective(prefix, kind, m, kind', n);
    }
  }

  lemma IssuedLonger(prefix: Text, kind: Kind, id: Text, limit: nat, limit': nat)
    requires Issued(prefix, kind, id, limit) && limit <= limit'
    ensures Issued(prefix, kind, id, limit')
  {
    var n: nat :| n < limit && id == MakeId(prefix, kind, n);
    assert n < limit' && id == MakeId(prefix, kind, n);
  }

  // ---------------------------------------------------------------- invariant

  ghost predicate NoDuplicates<T>(xs: seq<T>) {
    forall i, j :: 0 <= i < j < |xs| ==> xs[i] != xs[j]
  }

  ghost predicate RunsValid(st: Store) {
    && NoDuplicates(st.order)
    && (forall id :: id in st.order <==> id in st.runs)
    && (forall id :: id in st.runs ==> st.runs[id].id == id)
    && (forall id :: id in st.runs ==> Issued(st.prefix, RunId, id, st.nextId))
  }

  /** Each list belongs to an existing run and holds only that run's records, with distinct ids. */
  ghost predicate ChildrenValid<T(!new)>(
    children: Children<T>, kind: Kind, runs: map<Text, ActionRun>, prefix: Text, limit: nat)
  {
    && (forall r :: r in children ==> r in runs)
    && (forall r, i :: r in children && 0 <= i < |children[r]| ==>
         children[r][i].actionRunId == r && Issued(prefix, kind, children[r][i].id, limit))
    && (forall r, i, s, j ::
         r in children && 0 <= i < |children[r]| && s in children && 0 <= j < |children[s]| ==>
         children[r][i].id == children[s][j].id ==> r == s && i == j)
  }

  ghost predicate Valid(st: Store) {
    && RunsValid(st)
    && ChildrenValid(st.snapshots, SnapshotId, st.runs, st.prefix, st.nextId)
    && ChildrenValid(st.effects, EffectId, st.runs, st.prefix, st.nextId)
    && ChildrenValid(st.conflicts, ConflictId, st.runs, st.prefix, st.nextId)
  }

  lemma EmptyValid(prefix: Text)
    ensures Valid(Empty(prefix))
  {
  }

  // ---------------------------------------------------------------- writes

  function ChildrenOf<T>(children: Children<T>, id: Text): seq<Child<T>> {
    if id in children then children[id] else []
  }

  function AddChild<T>(children: Children<T>, child: Child<T>): Children<T> {
    children[child.actionRunId := ChildrenOf(children, child.actionRunId) + [child]]
  }

  function CreateRun(st: Store, input: CreateInput, now: int): Result<(Store, ActionRun), ErrorCode> {
    if input.idempotencyKey.Some? && !KeyFits(input.idempotencyKey.value) then
      Err(ACTION_INPUT_INVALID)
    else
      var id := MakeId(st.prefix, RunId, st.nextId);
      var run := NewRun(input, id, now);
      Ok((st.(nextId := st.nextId + 1, runs := st.runs[id := run],
              order := if id in st.runs then st.order else st.order + [id]), run))
  }

  /** The first stored run, in insertion order, with the given idempotency scope. */
  function FindScope(order: seq<Text>, runs: map<Text, ActionRun>, scope: Scope): Option<ActionRun> {
    if order == [] then None
    else if order[0] in runs && RunScope(runs[order[0]]) == scope then Some(runs[order[0]])
    else FindScope(order[1..], runs, scope)
  }

  /** The claimed run and whether this call created it. */
  function ClaimRun(st: Store, input: CreateInput, now: int)
    : Result<(Store, ActionRun, bool), ErrorCode>
    requires input.idempotencyKey.Some?
  {
    if !KeyFits(input.idempotencyKey.value) then Err(ACTION_INPUT_INVALID)
    else
      match FindScope(st.order, st.runs, InputScope(input))
      case Some(existing) => Ok((st, existing, false))
      case None =>
        match CreateRun(st, input, now)
        case Ok(created) => Ok((created.0, created.1, true))
        case Err(e) => Err(e)
  }

  function UpdateRun(st: Store, id: Text, u: UpdateInput): Result<(Store, ActionRun), ErrorCode> {
    if id !in st.runs then Err(ACTION_NOT_FOUND)
    else
      var run := Merge(st.runs[id], u);
      Ok((st.(runs := st.runs[id := run]), run))
  }

  function SaveSnapshot(st: Store, runId: Text, body: SnapshotBody, now: int)
    : Result<(Store, Child<SnapshotBody>), ErrorCode>
  {
    if runId !in st.runs then Err(ACTION_NOT_FOUND)
    else
      var child := Child(MakeId(st.prefix, SnapshotId, st.nextId), runId, now, body);
      Ok((st.(nextId := st.nextId + 1, snapshots := AddChild(st.snapshots, child)), child))
  }

  function RecordEffect(st: Store, runId: Text, body: EffectBody, now: int)
    : Result<(Store, Child<EffectBody>), ErrorCode>
  {
    if runId !in st.runs then Err(ACTION_NOT_FOUND)
    else
      var child := Child(MakeId(st.prefix, EffectId, st.nextId), runId, now, body);
      Ok((st.(nextId := st.nextId + 1, effects := AddChild(st.effects, child)), child))
  }

  function RecordConflict(st: Store, runId: Text, body: ConflictBody, now: int)
    : Result<(Store, Child<ConflictBody>), ErrorCode>
  {
    if runId !in st.runs then Err(ACTION_NOT_FOUND)
    else
      var child := Child(MakeId(st.prefix, ConflictId, st.nextId), runId, now, body);
      Ok((st.(nextId := st.nextId + 1, conflicts := AddChild(st.conflicts, child)), child))
  }

  // ---------------------------------------------------------------- what the writes store

  /** Creating refuses exactly the keys that do not fit, and stores a new run made for the input. */
  lemma CreateRunStores(st: Store, input: CreateInput, now: int)
    ensures CreateRun(st, input, now).Ok? <==>
      input.idempotencyKey.None? || Utf8Length(input.idempotencyKey.value) <= 255
    ensures CreateRun(st, input, now).Err? ==> CreateRun(st, input, now).error == ACTION_INPUT_INVALID
    ensures CreateRun(st, input, now).Ok? ==>
      var (after, run) := CreateRun(st, input, now).value;
      && MadeFor(run, input, now) && run.id in after.runs && after.runs[run.id] == run
      && after.runs == st.runs[run.id := run]
      && after == st.(nextId := after.nextId, runs := after.runs, order := after.order)
  {
  }

  /** Updating refuses an unknown run, and otherwise changes the given fields of that run alone. */
  lemma UpdateRunStores(st: Store, id: Text, u: UpdateInput)
    ensures id !in st.runs ==> UpdateRun(st, id, u) == Err(ACTION_NOT_FOUND)
    ensures id in st.runs ==>
      && UpdateRun(st, id, u).Ok?
      && var (after, run) := UpdateRun(st, id, u).value;
         UpdatedBy(st.runs[id], u, run) && after == st.(runs := st.runs[id := run])
  {
  }

  /** One record with exactly that content follows those the run had, and no other list changes. */
  predicate OneMore<T(==)>(before: Children<T>, after: Children<T>, child: Child<T>, runId: Text, body: T, now: int) {
    && child.actionRunId == runId && child.createdAt == now && child.body == body
    && runId in after && after[runId] == (if runId in before then before[runId] else []) + [child]
    && after.Keys == before.Keys + {runId}
    && forall other | other in before && other != runId :: after[other] == before[other]
  }

  lemma SaveSnapshotAppends(st: Store, runId: Text, body: SnapshotBody, now: int)
    ensures runId !in st.runs ==> SaveSnapshot(st, runId, body, now) == Err(ACTION_NOT_FOUND)
    ensures runId in st.runs ==>
      && SaveSnapshot(st, runId, body, now).Ok?
      && var (after, child) := SaveSnapshot(st, runId, body, now).value;
         && OneMore(st.snapshots, after.snapshots, child, runId, body, now)
         && after == st.(nextId := after.nextId, snapshots := after.snapshots)
  {
  }

  lemma RecordEffectAppends(st: Store, runId: Text, body: EffectBody, now: int)
    ensures runId !in st.runs ==> RecordEffect(st, runId, body, now) == Err(ACTION_NOT_FOUND)
    ensures runId in st.runs ==>
      && RecordEffect(st, runId, body, now).Ok?
      && var (after, child) := RecordEffect(st, runId, body, now).value;
         && OneMore(st.effects, after.effects, child, runId, body, now)
         && after == st.(nextId := after.nextId, effects := after.effects)
  {
  }

  lemma RecordConflictAppends(st: Store, runId: Text, body: ConflictBody, now: int)
    ensures runId !in st.runs ==> RecordConflict(st, runId, body, now) == Err(ACTION_NOT_FOUND)
    ensures runId in st.runs ==>
      && RecordConflict(st, runId, body, now).Ok?
      && var (after, child) := RecordConflict(st, runId, body, now).value;
         && OneMore(st.conflicts, after.conflicts, child, runId, body, now)
         && after == st.(nextId := after.nextId, conflicts := after.conflicts)
  {
  }

  // ---------------------------------------------------------------- reads

  predicate ScopedQuery(q: RecordQuery) {
    q.tenantId.Some? || (q.actorId.Some? && q.actorType.Some?)
  }

  /** Each given part of the scope is the run's own. */
  predicate InScope(run: ActionRun, q: RecordQuery) {
    && (q.tenantId.Some? ==> run.tenantId == q.tenantId)
    && (q.actorId.Some? ==> run.actor.id == q.actorId.value)
    && (q.actorType.Some? ==> run.actor.kind == q.actorType.value)
  }

  predicate MatchesRecordQuery(st: Store, q: RecordQuery) {
    q.actionRunId in st.runs && InScope(st.runs[q.actionRunId], q)
  }

  function ReadChildren<T>(st: Store, children: Children<T>, q: RecordQuery)
    : Result<seq<Child<T>>, ErrorCode>
  {
    if !ScopedQuery(q) then Err(ACTION_PERMISSION_DENIED)
    else if !MatchesRecordQuery(st, q) then Ok([])
    else Ok(ChildrenOf(children, q.actionRunId))
  }

  // ---------------------------------------------------------------- preservation

  lemma ChildrenStayValid<T(!new)>(
    children: Children<T>, kind: Kind, runs: map<Text, ActionRun>, runs': map<Text, ActionRun>,
    prefix: Text, limit: nat, limit': nat)
    requires ChildrenValid(children, kind, runs, prefix, limit)
    requires runs.Keys <= runs'.Keys && limit <= limit'
    ensures ChildrenValid(children, kind, runs', prefix, limit')
  {
    hide Issued;
    forall r | r in children ensures r in runs' {
      assert r in runs.Keys;
    }
    forall r, i | r in children && 0 <= i < |children[r]|
      ensures Issued(prefix, kind, children[r][i].id, limit')
    {
      IssuedLonger(prefix, kind, children[r][i].id, limit, limit');
    }
  }

  lemma AddChildValid<T(!new)>(
    children: Children<T>, kind: Kind, runs: map<Text, ActionRun>, prefix: Text, limit: nat,
    child: Child<T>)
    requires ChildrenValid(children, kind, runs, prefix, limit)
    requires child.actionRunId in runs && child.id == MakeId(prefix, kind, limit)
    ensures ChildrenValid(AddChild(children, child), kind, runs, prefix, limit + 1)
  {
    ChildrenStayValid(children, kind, runs, runs, prefix, limit, limit + 1);
    var after: Children<T> := AddChild(children, child);
    var own := child.actionRunId;
    var last := |after[own]| - 1;
    assert Issued(prefix, kind, child.id, limit + 1);
    forall r, i | r in after && 0 <= i < |after[r]|
      ensures after[r][i].actionRunId == r && Issued(prefix, kind, after[r][i].id, limit + 1)
      ensures (r == own && i == last) || (r in children && i < |children[r]|)
      ensures (r == own && i == last) || after[r][i] == children[r][i]
      ensures (r == own && i == last) || after[r][i].id != child.id
    {
      if r != own || i != last {
        assert after[r][i] == children[r][i];
        IssuedIsOld(prefix, kind, children[r][i].id, limit, kind, limit);
      }
    }
  }

  lemma CreateRunKeepsValid(st: Store, input: CreateInput, now: int)
    requires Valid(st)
    ensures var r := CreateRun(st, input, now);
      r.Ok? ==>
        && Valid(r.value.0)
        && r.value.1.id !in st.runs
        && r.value.0.runs == st.runs[r.value.1.id := r.value.1]
        && r.value.0.order == st.order + [r.value.1.id]
  {
    var r := CreateRun(st, input, now);
    if r.Ok? {
      var st' := r.value.0;
      var id := r.value.1.id;
      FreshRunId(st);
      assert Issued(st.prefix, RunId, id, st'.nextId);
      forall x | x in st'.runs ensures Issued(st.prefix, RunId, x, st'.nextId) {
        if x != id {
          IssuedLonger(st.prefix, RunId, x, st.nextId, st'.nextId);
        }
      }
      ChildrenStayValid(st.snapshots, SnapshotId, st.runs, st'.runs, st.prefix, st.nextId, st'.nextId);
      ChildrenStayValid(st.effects, EffectId, st.runs, st'.runs, st.prefix, st.nextId, st'.nextId);
      ChildrenStayValid(st.conflicts, ConflictId, st.runs, st'.runs, st.prefix, st.nextId, st'.nextId);
    }
  }

  lemma FreshRunId(st: Store)
    requires RunsValid(st)
    ensures MakeId(st.prefix, RunId, st.nextId) !in st.runs
  {
    var id := MakeId(st.prefix, RunId, st.nextId);
    if id in st.runs {
      IssuedIsOld(st.prefix, RunId, id, st.nextId, RunId, st.nextId);
    }
  }

  lemma UpdateRunKeepsValid(st: Store, id: Text, u: UpdateInput)
    requires Valid(st)
    ensures var r := UpdateRun(st, id, u); r.Ok? ==> Valid(r.value.0)
  {
    var r := UpdateRun(st, id, u);
    if r.Ok? {
      var st' := r.value.0;
      assert st'.runs.Keys == st.runs.Keys;
      ChildrenStayValid(st.snapshots, SnapshotId, st.runs, st'.runs, st.prefix, st.nextId, st.nextId);
      ChildrenStayValid(st.effects, EffectId, st.runs, st'.runs, st.prefix, st.nextId, st.nextId);
      ChildrenStayValid(st.conflicts, ConflictId, st.runs, st'.runs, st.prefix, st.nextId, st.nextId);
    }
  }

  lemma RunsStayValid(st: Store, st': Store)
    requires RunsValid(st)
    requires st'.runs == st.runs && st'.order == st.order && st'.prefix == st.prefix
    requires st.nextId <= st'.nextId
    ensures RunsValid(st')
  {
    hide Issued;
    forall x | x in st'.runs ensures Issued(st.prefix, RunId, x, st'.nextId) {
      IssuedLonger(st.prefix, RunId, x, st.nextId, st'.nextId);
    }
  }

  lemma SaveSnapshotKeepsValid(st: Store, runId: Text, body: SnapshotBody, now: int)
    requires Valid(st)
    ensures var r := SaveSnapshot(st, runId, body, now); r.Ok? ==> Valid(r.value.0)
  {
    var r := SaveSnapshot(st, runId, body, now);
    if r.Ok? {
      RunsStayValid(st, r.value.0);
      AddChildValid(st.snapshots, SnapshotId, st.runs, st.prefix, st.nextId, r.value.1);
      ChildrenStayValid(st.effects, EffectId, st.runs, st.runs, st.prefix, st.nextId, st.nextId + 1);
      ChildrenStayValid(st.conflicts, ConflictId, st.runs, st.runs, st.prefix, st.nextId, st.nextId + 1);
    }
  }

  lemma RecordEffectKeepsValid(st: Store, runId: Text, body: EffectBody, now: int)
    requires Valid(st)
    ensures var r := RecordEffect(st, runId, body, now); r.Ok? ==> Valid(r.value.0)
  {
    var r := RecordEffect(st, runId, body, now);
    if r.Ok? {
      RunsStayValid(st, r.value.0);
      AddChildValid(st.effects, EffectId, st.runs, st.prefix, st.nextId, r.value.1);
      ChildrenStayValid(st.snapshots, SnapshotId, st.runs, st.runs, st.prefix, st.nextId, st.nextId + 1);
      ChildrenStayValid(st.conflicts, ConflictId, st.runs, st.runs, st.prefix, st.nextId, st.nextId + 1);
    }
  }

  lemma RecordConflictKeepsValid(st: Store, runId: Text, body: ConflictBody, now: int)
    requires Valid(st)
    ensures var r := RecordConflict(st, runId, body, now); r.Ok? ==> Valid(r.value.0)
  {
    var r := RecordConflict(st, runId, body, now);
    if r.Ok? {
      RunsStayValid(st, r.value.0);
      AddChildValid(st.conflicts, ConflictId, st.runs, st.prefix, st.nextId, r.value.1);
      ChildrenStayValid(st.snapshots, SnapshotId, st.runs, st.runs, st.prefix, st.nextId, st.nextId + 1);
      ChildrenStayValid(st.effects, EffectId, st.runs, st.runs, st.prefix, st.nextId, st.nextId + 1);
    }
  }

  /** Finding by scope succeeds exactly when some stored run has that scope. */
  lemma {:induction false} FindScopeExact(order: seq<Text>, runs: map<Text, ActionRun>, scope: Scope)
    ensures FindScope(order, runs, scope).None?
      <==> forall id | id in order && id in runs :: RunScope(runs[id]) != scope
    ensures FindScope(order, runs, scope).Some? ==>
      exists id | id in order && id in runs ::
        runs[id] == FindScope(order, runs, scope).value && RunScope(runs[id]) == scope
    decreases |order|
  {
    if order != [] {
      FindScopeExact(order[1..], runs, scope);
      assert order[0] in order;
      forall id | id in order ensures id == order[0] || id in order[1..] {
      }
    }
  }

  /** In a valid store the search covers every run and returns a stored one. */
  lemma FindScopeDecides(st: Store, scope: Scope)
    requires Valid(st)
    ensures FindScope(st.order, st.runs, scope).None?
      <==> forall id | id in st.runs :: RunScope(st.runs[id]) != scope
    ensures FindScope(st.order, st.runs, scope).Some? ==>
      var run := FindScope(st.order, st.runs, scope).value;
      run.id in st.runs && st.runs[run.id] == run && RunScope(run) == scope
  {
    FindScopeExact(st.order, st.runs, scope);
  }

  // ---------------------------------------------------------------- appended conflicts

  function Bodies(children: seq<Child<ConflictBody>>): (r: seq<ConflictBody>)
    ensures |r| == |children|
    ensures forall i :: 0 <= i < |r| ==> r[i] == children[i].body
  {
    seq(|children|, i requires 0 <= i < |children| => children[i].body)
  }

  /** Only the conflicts of one run were extended, by the given reasons in order. */
  ghost predicate ConflictsAppended(a: Store, b: Store, id: Text, records: seq<ConflictBody>) {
    && b == a.(nextId := b.nextId, conflicts := b.conflicts)
    && Bodies(ChildrenOf(b.conflicts, id)) == Bodies(ChildrenOf(a.conflicts, id)) + records
    && (forall other :: other != id ==>
         ChildrenOf(b.conflicts, other) == ChildrenOf(a.conflicts, other))
  }

  lemma AppendedKeepsRuns(a: Store, b: Store, id: Text, records: seq<ConflictBody>)
    requires ConflictsAppended(a, b, id, records)
    ensures b.runs == a.runs
  {
  }

  lemma AppendNothing(a: Store, id: Text)
    ensures ConflictsAppended(a, a, id, [])
  {
    assert Bodies(ChildrenOf(a.conflicts, id)) + [] == Bodies(ChildrenOf(a.conflicts, id));
  }

  lemma GroupConflicts(before: seq<ConflictBody>, r: seq<ConflictBody>, s: seq<ConflictBody>)
    ensures before + r + s == before + (r + s)
  {
  }

  lemma AppendMore(a: Store, b: Store, c: Store, id: Text, r: seq<ConflictBody>, s: seq<ConflictBody>)
    requires ConflictsAppended(a, b, id, r) && ConflictsAppended(b, c, id, s)
    ensures ConflictsAppended(a, c, id, r + s)
  {
    hide Bodies, ChildrenOf;
    GroupConflicts(Bodies(ChildrenOf(a.conflicts, id)), r, s);
  }

  /** Storing one conflict appends it to its run's list and changes nothing else. */
  lemma RecordOneAppends(st: Store, runId: Text, body: ConflictBody, now: int)
    requires runId in st.runs
    ensures var r := RecordConflict(st, runId, body, now);
      r.Ok? && ConflictsAppended(st, r.value.0, runId, [body])
  {
    var (after, child) := RecordConflict(st, runId, body, now).value;
    var earlier := ChildrenOf(st.conflicts, runId);
    assert ChildrenOf(after.conflicts, runId) == earlier + [child];
    assert Bodies(earlier + [child]) == Bodies(earlier) + [body];
  }
}
