/** Reads of a run's child records: a join with the run's row, guarded by the tenant and actor scope. */
module SqlRecords {
  import opened Prelude
  import opened JsonText
  import opened Lifecycle
  import opened Sorting
  import opened StoreState
  import opened PostgresRows
  import opened SqlHistory

  /** The scope's conditions, numbered after the run id that is bound first. */
  method CreateRecordScope(q: RecordQuery, compareIds: (Text, Text) -> int)
    returns (cs: seq<Condition>, values: seq<Value>)
    ensures forall row | ColumnsAgree(row) && row.id == q.actionRunId ::
      EvalWhere(cs, [TextValue(q.actionRunId)] + values, row, compareIds) == True
      <==> InScope(RunOf(row), q)
  {
    hide EvalWhere;
    var b := new ConditionBuilder([TextValue(q.actionRunId)], compareIds);
    if q.tenantId.Some? {
      b.AddCondition(TenantId, TextValue(q.tenantId.value));
    }
    if q.actorId.Some? {
      b.AddCondition(ActorId, TextValue(q.actorId.value));
    }
    if q.actorType.Some? {
      b.AddCondition(ActorType, TextValue(q.actorType.value));
    }
    cs := b.conditions;
    values := b.values[1..];
    assert [TextValue(q.actionRunId)] + values == b.values;
  }

  /** `child.action_run_id = $1`. */
  function ChildCondition<T>(child: Child<T>, values: seq<Value>): Truth {
    match Bound(values, 1)
    case Some(v) => SqlEquals(Some(TextValue(child.actionRunId)), v)
    case None => Unknown
  }

  /** The child joined with each run row it belongs to, where the whole condition is true. */
  function JoinOne<T>(child: Child<T>, runs: seq<Row>, cs: seq<Condition>, values: seq<Value>,
                      compareIds: (Text, Text) -> int): seq<Child<T>> {
    if runs == [] then []
    else
      var keep := And(ChildCondition(child, values), EvalWhere(cs, values, runs[0], compareIds));
      (if runs[0].id == child.actionRunId && keep == True then [child] else []) +
      JoinOne(child, runs[1..], cs, values, compareIds)
  }

  /** `FROM children INNER JOIN runs ON runs.id = children.action_run_id WHERE ...`. */
  function Join<T>(table: seq<Child<T>>, runs: seq<Row>, cs: seq<Condition>, values: seq<Value>,
                   compareIds: (Text, Text) -> int): seq<Child<T>> {
    if table == [] then []
    else JoinOne(table[0], runs, cs, values, compareIds) + Join(table[1..], runs, cs, values, compareIds)
  }

  /** `ORDER BY created_at ASC, id ASC`. */
  function OldestFirst<T>(compareIds: (Text, Text) -> int): (Child<T>, Child<T>) -> int {
    (a: Child<T>, b: Child<T>) =>
      if a.createdAt != b.createdAt then a.createdAt - b.createdAt else compareIds(a.id, b.id)
  }

  ghost predicate ChildKeys<T>(children: seq<Child<T>>) {
    forall i, j :: 0 <= i < j < |children| ==> children[i].id != children[j].id
  }

  /** The run of the query is stored and in the query's scope. */
  ghost predicate Admits(runs: seq<Row>, q: RecordQuery) {
    exists run | run in runs :: run.id == q.actionRunId && InScope(RunOf(run), q)
  }

  lemma {:induction false} JoinOneIs<T>(child: Child<T>, runs: seq<Row>, cs: seq<Condition>, values: seq<Value>,
                                       q: RecordQuery, compareIds: (Text, Text) -> int)
    requires PrimaryKey(runs) && |values| > 0 && values[0] == TextValue(q.actionRunId)
    requires forall run | run in runs && run.id == q.actionRunId ::
      EvalWhere(cs, values, run, compareIds) == True <==> InScope(RunOf(run), q)
    ensures JoinOne(child, runs, cs, values, compareIds)
         == if child.actionRunId == q.actionRunId && Admits(runs, q) then [child] else []
    decreases |runs|
  {
    hide EvalWhere, InScope, RunOf;
    if runs != [] {
      assert runs[0] in runs;
      forall run | run in runs[1..] ensures run in runs && run.id != runs[0].id {
        var i :| 0 <= i < |runs[1..]| && runs[1..][i] == run;
        assert runs[i + 1] == run;
      }
      JoinOneIs(child, runs[1..], cs, values, q, compareIds);
      assert forall run :: run in runs <==> run == runs[0] || run in runs[1..];
    }
  }

  /** The join lists exactly the run's records, each once, when its run is admitted, and nothing otherwise. */
  lemma {:induction false} JoinIs<T(!new)>(table: seq<Child<T>>, runs: seq<Row>, cs: seq<Condition>,
                                          values: seq<Value>, q: RecordQuery, compareIds: (Text, Text) -> int)
    requires PrimaryKey(runs) && ChildKeys(table) && |values| > 0 && values[0] == TextValue(q.actionRunId)
    requires forall run | run in runs && run.id == q.actionRunId ::
      EvalWhere(cs, values, run, compareIds) == True <==> InScope(RunOf(run), q)
    ensures var joined := Join(table, runs, cs, values, compareIds);
      && ChildKeys(joined)
      && forall c :: c in joined <==> c in table && c.actionRunId == q.actionRunId && Admits(runs, q)
    decreases |table|
  {
    hide EvalWhere, InScope, RunOf, Admits, JoinOne, PrimaryKey;
    if table != [] {
      JoinOneIs(table[0], runs, cs, values, q, compareIds);
      JoinIs(table[1..], runs, cs, values, q, compareIds);
      var rest := Join(table[1..], runs, cs, values, compareIds);
      forall i | 0 <= i < |rest| ensures rest[i].id != table[0].id {
        assert rest[i] in table[1..];
        var k :| 0 <= k < |table[1..]| && table[1..][k] == rest[i];
        assert table[k + 1] == rest[i];
      }
      assert forall c :: c in table <==> c == table[0] || c in table[1..];
    }
  }

  /** The two stores hold the same runs, and for each run the same records. */
  ghost predicate Mirrors<T(!new)>(st: Store, children: Children<T>, runs: seq<Row>, table: seq<Child<T>>) {
    && (forall run | run in runs :: run.id in st.runs && st.runs[run.id] == RunOf(run))
    && (forall id | id in st.runs :: exists run | run in runs :: run.id == id)
    && (forall id, c :: (c in ChildrenOf(children, id) <==> c in table && c.actionRunId == id))
  }

  ghost predicate TimesIncrease<T>(children: seq<Child<T>>) {
    forall i, j :: 0 <= i < j < |children| ==> children[i].createdAt < children[j].createdAt
  }

  /**
   A scoped read refuses what the in-memory one refuses and otherwise returns the same records, each
   once. Records of one millisecond come in the order of their random ids, so the lists are equal
   when no two records of the run were created in the same millisecond.
   */
  method ReadScoped<T(!new)>(runs: seq<Row>, table: seq<Child<T>>, q: RecordQuery, compareIds: (Text, Text) -> int,
                             ghost st: Store, ghost children: Children<T>)
    returns (r: Result<seq<Child<T>>, ErrorCode>)
    requires PrimaryKey(runs) && ChildKeys(table) && (forall run | run in runs :: ColumnsAgree(run))
    requires Consistent(compareIds) && Mirrors(st, children, runs, table)
    ensures var memory := ReadChildren(st, children, q);
      && (r.Err? <==> memory.Err?) && (r.Err? ==> r.error == memory.error)
      && (r.Ok? ==>
            && ChildKeys(r.value) && (forall c :: c in r.value <==> c in memory.value)
            && (TimesIncrease(memory.value) ==> r.value == memory.value))
  {
    hide EvalWhere, Consistent, Join, Sort, ColumnsAgree;
    if q.tenantId.None? && (q.actorId.None? || q.actorType.None?) {
      return Err(ACTION_PERMISSION_DENIED);
    }
    var cs, scope := CreateRecordScope(q, compareIds);
    var values := [TextValue(q.actionRunId)] + scope;
    var joined := Join(table, runs, cs, values, compareIds);
    JoinIs(table, runs, cs, values, q, compareIds);
    AdmitsAsMemory(st, children, runs, table, q);
    OrderedRead(joined, ReadChildren(st, children, q).value, compareIds);
    r := Ok(Sort(joined, OldestFirst(compareIds)));
  }

  /** The joined run is admitted exactly when the in-memory check passes. */
  lemma AdmitsAsMemory<T(!new)>(st: Store, children: Children<T>, runs: seq<Row>, table: seq<Child<T>>,
                                q: RecordQuery)
    requires Mirrors(st, children, runs, table) && ScopedQuery(q)
    ensures Admits(runs, q) <==> MatchesRecordQuery(st, q)
    ensures var memory := ReadChildren(st, children, q).value;
      forall c :: c in memory <==> (c in table && c.actionRunId == q.actionRunId && Admits(runs, q))
  {
    hide RunOf;
    if MatchesRecordQuery(st, q) {
      var run :| run in runs && run.id == q.actionRunId;
      assert st.runs[run.id] == RunOf(run);
    }
  }

  lemma OldestConsistent<T(!new)>(compareIds: (Text, Text) -> int)
    requires Consistent(compareIds)
    ensures Consistent(OldestFirst<T>(compareIds))
  {
    var order := OldestFirst<T>(compareIds);
    forall a: Child<T>, b: Child<T> ensures order(a, b) <= 0 <==> 0 <= order(b, a) {
      assert compareIds(a.id, b.id) <= 0 <==> 0 <= compareIds(b.id, a.id);
    }
    forall a: Child<T>, b: Child<T>, c: Child<T> | order(a, b) <= 0 && order(b, c) <= 0
      ensures order(a, c) <= 0
    {
      if a.createdAt == b.createdAt == c.createdAt {
        assert compareIds(a.id, b.id) <= 0 && compareIds(b.id, c.id) <= 0;
      }
    }
  }

  lemma OrderedRead<T(!new)>(joined: seq<Child<T>>, stored: seq<Child<T>>, compareIds: (Text, Text) -> int)
    requires Consistent(compareIds) && ChildKeys(joined)
    requires forall c :: c in joined <==> c in stored
    ensures var sorted := Sort(joined, OldestFirst(compareIds));
      && ChildKeys(sorted) && (forall c :: c in sorted <==> c in stored)
      && (TimesIncrease(stored) ==> sorted == stored)
  {
    hide OldestFirst, Sort, Insert;
    var order, id := OldestFirst<T>(compareIds), (c: Child<T>) => c.id;
    OldestConsistent<T>(compareIds);
    SortMembers(joined, order);
    SortDistinct(joined, order, id);
    var sorted := Sort(joined, order);
    forall i, j | 0 <= i < j < |sorted| ensures sorted[i].id != sorted[j].id {
      assert id(sorted[i]) != id(sorted[j]);
    }
    if TimesIncrease(stored) {
      ByTime<T>(compareIds);
      TimesTellApart(joined, stored, order);
      SortStrict(joined, order);
      StrictlySortedUnique(sorted, stored, order);
    }
  }

  lemma ByTime<T(!new)>(compareIds: (Text, Text) -> int)
    ensures forall a: Child<T>, b: Child<T> :: a.createdAt != b.createdAt ==>
      OldestFirst<T>(compareIds)(a, b) == a.createdAt - b.createdAt
  {
  }

  lemma TimesTellApart<T(!new)>(joined: seq<Child<T>>, stored: seq<Child<T>>, order: (Child<T>, Child<T>) -> int)
    requires TimesIncrease(stored) && ChildKeys(joined) && forall c :: c in joined ==> c in stored
    requires forall a: Child<T>, b: Child<T> :: a.createdAt != b.createdAt ==> order(a, b) == a.createdAt - b.createdAt
    ensures Apart(joined, order) && StrictlySorted(stored, order)
  {
    forall i, j | 0 <= i < j < |joined| ensures order(joined[i], joined[j]) != 0 {
      assert joined[i] in stored && joined[j] in stored;
      var k :| 0 <= k < |stored| && stored[k] == joined[i];
      var l :| 0 <= l < |stored| && stored[l] == joined[j];
      assert k != l;
      assert stored[k].createdAt != stored[l].createdAt;
    }
  }
}
