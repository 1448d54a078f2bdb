/** History queries: the index-slice cursor of the in-memory store and the keyset condition of SQL. */
module Pagination {
  import opened Prelude
  import opened JsonText
  import opened Lifecycle
  import opened Sorting

  datatype HistoryQuery = HistoryQuery(
    tenantId: Option<Text>, actorId: Option<Text>, actorType: Option<Text>,
    targetType: Option<Text>, targetId: Option<Text>, name: Option<Text>,
    status: Option<Status>, limit: Option<int>, cursor: Option<Text>)

  /** The filters, each applied only when given. */
  predicate MatchesHistory(run: ActionRun, q: HistoryQuery) {
    && (q.tenantId.Some? ==> run.tenantId == q.tenantId)
    && (q.actorId.Some? ==> run.actor.id == q.actorId.value)
    && (q.actorType.Some? ==> run.actor.kind == q.actorType.value)
    && (q.targetType.Some? ==> run.target.Some? && run.target.value.kind == q.targetType.value)
    && (q.targetId.Some? ==> run.target.Some? && run.target.value.id == q.targetId.value)
    && (q.name.Some? ==> run.name == q.name.value)
    && (q.status.Some? ==> run.status == q.status.value)
  }

  /** Newest first, then by descending id. */
  function NewestFirst(compareIds: (Text, Text) -> int): (ActionRun, ActionRun) -> int {
    (a: ActionRun, b: ActionRun) =>
      if a.createdAt != b.createdAt then b.createdAt - a.createdAt else compareIds(b.id, a.id)
  }

  function Filter(runs: seq<ActionRun>, p: ActionRun -> bool): (r: seq<ActionRun>)
    ensures forall x :: x in r <==> x in runs && p(x)
    ensures |r| <= |runs|
  {
    if runs == [] then []
    else (if p(runs[0]) then [runs[0]] else []) + Filter(runs[1..], p)
  }

  function FindIndex(runs: seq<ActionRun>, id: Text): (r: Option<nat>)
    ensures r.None? <==> forall x | x in runs :: x.id != id
    ensures r.Some? ==> r.value < |runs| && runs[r.value].id == id
  {
    if runs == [] then None
    else if runs[0].id == id then Some(0)
    else
      match FindIndex(runs[1..], id)
      case None => None
      case Some(i) => Some(i + 1)
  }

  /** `slice(0, Math.max(0, limit))`, when there is a limit. */
  function Limited(runs: seq<ActionRun>, limit: Option<int>): seq<ActionRun> {
    if limit.None? then runs
    else if limit.value <= 0 then []
    else if limit.value >= |runs| then runs
    else runs[..limit.value]
  }

  /** The number of runs a limit leaves of `n`: a negative one counts as zero. */
  function Count(limit: Option<int>, n: nat): nat {
    if limit.None? || limit.value >= n then n else if limit.value < 0 then 0 else limit.value
  }

  /** A limit keeps the first runs, as many as it says, or all when there are fewer. */
  lemma LimitedIs(runs: seq<ActionRun>, limit: Option<int>)
    ensures Limited(runs, limit) == runs[..Count(limit, |runs|)]
  {
  }

  /** Every matching run, as stored. */
  function Hits(runs: seq<ActionRun>, q: HistoryQuery): (r: seq<ActionRun>)
    ensures forall x :: x in r <==> x in runs && MatchesHistory(x, q)
  {
    Filter(runs, r => MatchesHistory(r, q))
  }

  /** Every matching run in query order. */
  function Matching(runs: seq<ActionRun>, q: HistoryQuery, compareIds: (Text, Text) -> int)
    : seq<ActionRun>
  {
    Sort(Hits(runs, q), NewestFirst(compareIds))
  }

  /** What the in-memory query keeps once the cursor is applied. */
  function AfterCursor(all: seq<ActionRun>, cursor: Option<Text>): seq<ActionRun> {
    if cursor.None? then all
    else
      match FindIndex(all, cursor.value)
      case None => all
      case Some(i) => all[i + 1..]
  }

  /** `queryActionRuns` of the in-memory store: filter, sort, drop through the cursor, limit. */
  function MemoryPage(runs: seq<ActionRun>, q: HistoryQuery, compareIds: (Text, Text) -> int)
    : seq<ActionRun>
  {
    Limited(AfterCursor(Matching(runs, q, compareIds), q.cursor), q.limit)
  }

  /** The run a cursor stands for: it must exist and satisfy the query's own filters. */
  function CursorRun(runs: seq<ActionRun>, q: HistoryQuery): Option<ActionRun> {
    if q.cursor.None? then None
    else
      match FindIndex(runs, q.cursor.value)
      case None => None
      case Some(i) => if MatchesHistory(runs[i], q) then Some(runs[i]) else None
  }

  /** The same page by comparing each run with the cursor's run. */
  function KeysetPage(runs: seq<ActionRun>, q: HistoryQuery, compareIds: (Text, Text) -> int)
    : seq<ActionRun>
  {
    Limited(KeysetMatching(runs, q, compareIds), q.limit)
  }

  /** The runs a keyset query keeps, before the limit. */
  function KeysetMatching(runs: seq<ActionRun>, q: HistoryQuery, compareIds: (Text, Text) -> int)
    : seq<ActionRun>
  {
    var cursor := CursorRun(runs, q);
    var order := NewestFirst(compareIds);
    Sort(Filter(runs, r => MatchesHistory(r, q) && (cursor.Some? ==> order(cursor.value, r) < 0)), order)
  }

  ghost predicate DistinctIds(runs: seq<ActionRun>) {
    forall i, j :: 0 <= i < j < |runs| ==> runs[i].id != runs[j].id
  }

  /** No two of the runs that were created at the same time have ids that tie. */
  ghost predicate IdsApart(runs: seq<ActionRun>, compareIds: (Text, Text) -> int) {
    forall x, y | x in runs && y in runs && x.id != y.id && x.createdAt == y.createdAt ::
      compareIds(x.id, y.id) != 0
  }

  lemma OrderConsistent(compareIds: (Text, Text) -> int)
    requires Consistent(compareIds)
    ensures Consistent(NewestFirst(compareIds))
  {
    var order := NewestFirst(compareIds);
    forall a: ActionRun, b: ActionRun ensures order(a, b) <= 0 <==> 0 <= order(b, a) {
      assert compareIds(b.id, a.id) <= 0 <==> 0 <= compareIds(a.id, b.id);
    }
    forall a: ActionRun, b: ActionRun, c: ActionRun | order(a, b) <= 0 && order(b, c) <= 0
      ensures order(a, c) <= 0
    {
      if a.createdAt == b.createdAt == c.createdAt {
        assert compareIds(b.id, a.id) <= 0 && compareIds(c.id, b.id) <= 0;
      }
    }
  }

  lemma {:induction false} SameIdSameRun(runs: seq<ActionRun>, a: ActionRun, b: ActionRun)
    requires DistinctIds(runs) && a in runs && b in runs && a.id == b.id
    ensures a == b
  {
    var i :| 0 <= i < |runs| && runs[i] == a;
    var j :| 0 <= j < |runs| && runs[j] == b;
    assert i == j || i < j || j < i;
  }

  lemma {:induction false} FilterDistinct(runs: seq<ActionRun>, p: ActionRun -> bool)
    requires DistinctIds(runs)
    ensures DistinctIds(Filter(runs, p))
    decreases |runs|
  {
    if runs != [] {
      FilterDistinct(runs[1..], p);
      var rest := Filter(runs[1..], p);
      var all := Filter(runs, p);
      if p(runs[0]) {
        forall i, j | 0 <= i < j < |all| ensures all[i].id != all[j].id {
          if i == 0 {
            assert rest[j - 1] in runs[1..];
            assert all[j] == rest[j - 1];
          }
        }
      }
    }
  }

  /** Runs told apart by time and id come out strictly ordered. */
  lemma SortedStrictly(runs: seq<ActionRun>, compareIds: (Text, Text) -> int)
    requires DistinctIds(runs) && Consistent(compareIds) && IdsApart(runs, compareIds)
    ensures StrictlySorted(Sort(runs, NewestFirst(compareIds)), NewestFirst(compareIds))
  {
    OrderConsistent(compareIds);
    forall i, j | 0 <= i < j < |runs| ensures NewestFirst(compareIds)(runs[i], runs[j]) != 0 {
      assert runs[i] in runs && runs[j] in runs;
    }
    SortStrict(runs, NewestFirst(compareIds));
  }

  lemma Mirrored(cmp: (Text, Text) -> int, x: Text, y: Text)
    requires Antisymmetric(cmp)
    ensures cmp(x, y) < 0 <==> cmp(y, x) > 0
    ensures cmp(x, y) == 0 <==> cmp(y, x) == 0
  {
    assert cmp(x, y) <= 0 <==> 0 <= cmp(y, x);
    assert cmp(y, x) <= 0 <==> 0 <= cmp(x, y);
  }

  /** What comes after position `k` of a strictly ordered list is what compares as later. */
  lemma AfterIsLater(all: seq<ActionRun>, k: nat, order: (ActionRun, ActionRun) -> int)
    requires Antisymmetric(order) && StrictlySorted(all, order) && k < |all|
    ensures forall x :: x in all[k + 1..] <==> x in all && order(all[k], x) < 0
  {
    forall i | 0 <= i <= k ensures 0 <= order(all[k], all[i]) {
      assert order(all[i], all[k]) <= 0 <==> 0 <= order(all[k], all[i]);
      assert order(all[k], all[k]) <= 0 <==> 0 <= order(all[k], all[k]);
    }
    forall x ensures x in all[k + 1..] <==> x in all && order(all[k], x) < 0 {
      if x in all[k + 1..] {
        var j :| 0 <= j < |all[k + 1..]| && all[k + 1..][j] == x;
        assert x == all[k + 1 + j];
      }
      if x in all && order(all[k], x) < 0 {
        var i :| 0 <= i < |all| && all[i] == x;
        assert i > k;
        assert all[k + 1..][i - k - 1] == x;
      }
    }
  }

  lemma MatchingOrdered(runs: seq<ActionRun>, q: HistoryQuery, compareIds: (Text, Text) -> int)
    requires DistinctIds(runs) && Consistent(compareIds) && IdsApart(Hits(runs, q), compareIds)
    ensures StrictlySorted(Matching(runs, q, compareIds), NewestFirst(compareIds))
    ensures StrictlySorted(KeysetMatching(runs, q, compareIds), NewestFirst(compareIds))
  {
    var order := NewestFirst(compareIds);
    var cursor := CursorRun(runs, q);
    var later := (r: ActionRun) => MatchesHistory(r, q) && (cursor.Some? ==> order(cursor.value, r) < 0);
    HitsDistinct(runs, q);
    SortedStrictly(Hits(runs, q), compareIds);
    FilterDistinct(runs, later);
    SortedStrictly(Filter(runs, later), compareIds);
  }

  lemma KeysetMembers(runs: seq<ActionRun>, q: HistoryQuery, compareIds: (Text, Text) -> int)
    ensures var cursor, order := CursorRun(runs, q), NewestFirst(compareIds);
      forall x :: x in KeysetMatching(runs, q, compareIds)
        <==> x in Matching(runs, q, compareIds) && (cursor.Some? ==> order(cursor.value, x) < 0)
  {
    var order := NewestFirst(compareIds);
    var cursor := CursorRun(runs, q);
    var later := (r: ActionRun) => MatchesHistory(r, q) && (cursor.Some? ==> order(cursor.value, r) < 0);
    SortMembers(Hits(runs, q), order);
    SortMembers(Filter(runs, later), order);
  }

  /** Dropping through the cursor and comparing with the cursor give the same page, always. */
  lemma IndexSliceIsKeyset(runs: seq<ActionRun>, q: HistoryQuery, compareIds: (Text, Text) -> int)
    requires DistinctIds(runs) && Consistent(compareIds) && IdsApart(Hits(runs, q), compareIds)
    ensures MemoryPage(runs, q, compareIds) == KeysetPage(runs, q, compareIds)
  {
    hide Limited, Matching, KeysetMatching, FindIndex, CursorRun, NewestFirst, DistinctIds, IdsApart, Hits;
    AfterCursorIsKeyset(runs, q, compareIds);
  }

  /** The query with another cursor and limit. */
  function Paged(q: HistoryQuery, cursor: Option<Text>, limit: Option<int>): HistoryQuery {
    q.(cursor := cursor, limit := limit)
  }

  /**
   The two cursors agree for every cursor and limit exactly when no two matching runs created at
   the same time have ids that tie.
   */
  lemma PagesAgreeIffApart(runs: seq<ActionRun>, q: HistoryQuery, compareIds: (Text, Text) -> int)
    requires DistinctIds(runs) && Consistent(compareIds)
    ensures (forall cursor, limit ::
               MemoryPage(runs, Paged(q, cursor, limit), compareIds) == KeysetPage(runs, Paged(q, cursor, limit), compareIds))
      <==> IdsApart(Hits(runs, q), compareIds)
  {
    hide MemoryPage, KeysetPage, DistinctIds, Hits, Consistent;
    if IdsApart(Hits(runs, q), compareIds) {
      hide IdsApart;
      forall cursor, limit
        ensures MemoryPage(runs, Paged(q, cursor, limit), compareIds) == KeysetPage(runs, Paged(q, cursor, limit), compareIds)
      {
        SameHits(runs, q, Paged(q, cursor, limit));
        IndexSliceIsKeyset(runs, Paged(q, cursor, limit), compareIds);
      }
    } else {
      var hits := Hits(runs, q);
      var x, y :| x in hits && y in hits && x.id != y.id && x.createdAt == y.createdAt
        && compareIds(x.id, y.id) == 0;
      var id := TiedRunsSplitPages(runs, q, compareIds, x, y);
    }
  }

  lemma {:induction false} SameHits(runs: seq<ActionRun>, q: HistoryQuery, q': HistoryQuery)
    requires q' == q.(cursor := q'.cursor, limit := q'.limit)
    ensures Hits(runs, q) == Hits(runs, q')
  {
    FilterExtensional(runs, r => MatchesHistory(r, q), r => MatchesHistory(r, q'));
  }

  /** Asked for what follows one of two tied runs, one cursor lists the other run and one does not. */
  lemma TiedRunsSplitPages(runs: seq<ActionRun>, q: HistoryQuery, compareIds: (Text, Text) -> int,
                           x: ActionRun, y: ActionRun)
    returns (id: Text)
    requires DistinctIds(runs) && Consistent(compareIds)
    requires x in Hits(runs, q) && y in Hits(runs, q) && x.id != y.id && x.createdAt == y.createdAt
    requires compareIds(x.id, y.id) == 0
    ensures MemoryPage(runs, Paged(q, Some(id), None), compareIds)
         != KeysetPage(runs, Paged(q, Some(id), None), compareIds)
  {
    hide Matching, KeysetMatching, MatchesHistory;
    var all := Matching(runs, q, compareIds);
    Mirrored(compareIds, x.id, y.id);
    MatchingIsExact(runs, q, compareIds);
    assert x in all && y in all;
    var k :| 0 <= k < |all| && all[k] == x;
    var l :| 0 <= l < |all| && all[l] == y;
    var first, second := if k < l then k else l, if k < l then l else k;
    id := all[first].id;
    SecondOnOnePage(runs, q, compareIds, first, second);
  }

  lemma HitsDistinct(runs: seq<ActionRun>, q: HistoryQuery)
    requires DistinctIds(runs)
    ensures DistinctIds(Hits(runs, q))
  {
    FilterDistinct(runs, r => MatchesHistory(r, q));
  }

  lemma SecondOnOnePage(runs: seq<ActionRun>, q: HistoryQuery, compareIds: (Text, Text) -> int,
                        first: nat, second: nat)
    requires DistinctIds(runs)
    requires first < second < |Matching(runs, q, compareIds)|
    requires var all := Matching(runs, q, compareIds); NewestFirst(compareIds)(all[first], all[second]) == 0
    ensures var q' := Paged(q, Some(Matching(runs, q, compareIds)[first].id), None);
      MemoryPage(runs, q', compareIds) != KeysetPage(runs, q', compareIds)
  {
    hide Matching, KeysetMatching, NewestFirst, MatchesHistory;
    var all := Matching(runs, q, compareIds);
    var q' := Paged(q, Some(all[first].id), None);
    PageAt(runs, q.(limit := None), compareIds, first) by {
      SameMatching(runs, q, q.(limit := None), compareIds);
    }
    SameMatching(runs, q, q.(limit := None), compareIds);
    SameMatching(runs, q, q', compareIds);
    CursorFound(runs, q', compareIds);
    MatchingIsExact(runs, q, compareIds);
    KeysetMembers(runs, q', compareIds);
    assert all[first + 1..][second - first - 1] == all[second];
    assert all[second] in all[first + 1..];
    assert q.(limit := None).(cursor := Some(all[first].id)) == q';
  }

  lemma AfterCursorIsKeyset(runs: seq<ActionRun>, q: HistoryQuery, compareIds: (Text, Text) -> int)
    requires DistinctIds(runs) && Consistent(compareIds) && IdsApart(Hits(runs, q), compareIds)
    ensures AfterCursor(Matching(runs, q, compareIds), q.cursor) == KeysetMatching(runs, q, compareIds)
  {
    hide FindIndex, NewestFirst, DistinctIds, IdsApart, Hits, Matching, KeysetMatching, StrictlySorted, Antisymmetric, Transitive;
    var order := NewestFirst(compareIds);
    var all := Matching(runs, q, compareIds);
    var keyset := KeysetMatching(runs, q, compareIds);
    MatchingOrdered(runs, q, compareIds);
    KeysetMembers(runs, q, compareIds);
    OrderConsistent(compareIds);
    if q.cursor.Some? {
      CursorFound(runs, q, compareIds);
    }
    var found := if q.cursor.Some? then FindIndex(all, q.cursor.value) else None;
    if found.Some? {
      AfterIsLater(all, found.value, order);
      TailSorted(all, found.value + 1, order);
      StrictlySortedUnique(all[found.value + 1..], keyset, order);
    } else {
      StrictlySortedUnique(all, keyset, order);
    }
  }

  // ---------------------------------------------------------------- two stores, two orders on ids

  /**
   Of two runs created at the same time, the one listed last may stay behind the other under both
   orders or under neither. A tie lets it stay.
   */
  ghost predicate StayAlike(runs: seq<ActionRun>, a: (Text, Text) -> int, b: (Text, Text) -> int) {
    forall i, j :: 0 <= i < j < |runs| && runs[i].createdAt == runs[j].createdAt ==>
      (a(runs[j].id, runs[i].id) <= 0 <==> b(runs[j].id, runs[i].id) <= 0)
  }

  /** Two orders list the matching runs alike exactly when they decide each pair of one time alike. */
  lemma SameListIff(runs: seq<ActionRun>, q: HistoryQuery, a: (Text, Text) -> int, b: (Text, Text) -> int)
    requires Consistent(a) && Consistent(b)
    ensures Matching(runs, q, a) == Matching(runs, q, b) <==> StayAlike(Hits(runs, q), a, b)
  {
    hide Hits, Sort, Consistent;
    OrderConsistent(a);
    OrderConsistent(b);
    SortsAgreeIff(Hits(runs, q), NewestFirst(a), NewestFirst(b));
    DecidedByIds(Hits(runs, q), a, b);
  }

  lemma DecidedByIds(runs: seq<ActionRun>, a: (Text, Text) -> int, b: (Text, Text) -> int)
    ensures DecideAlike(runs, NewestFirst(a), NewestFirst(b)) <==> StayAlike(runs, a, b)
  {
  }

  /** Two orders give the same pages for every cursor and limit exactly when they list alike. */
  lemma PagesAgreeIffListsDo(runs: seq<ActionRun>, q: HistoryQuery, a: (Text, Text) -> int, b: (Text, Text) -> int)
    ensures (forall cursor, limit ::
               MemoryPage(runs, Paged(q, cursor, limit), a) == MemoryPage(runs, Paged(q, cursor, limit), b))
      <==> Matching(runs, q, a) == Matching(runs, q, b)
  {
    hide MemoryPage, Matching;
    if Matching(runs, q, a) == Matching(runs, q, b) {
      forall cursor, limit
        ensures MemoryPage(runs, Paged(q, cursor, limit), a) == MemoryPage(runs, Paged(q, cursor, limit), b)
      {
        PageFollowsList(runs, runs, q, Paged(q, cursor, limit), a, b);
      }
    } else {
      WholePage(runs, q, a);
      WholePage(runs, q, b);
    }
  }

  /** Without cursor and limit the page is the whole list. */
  lemma WholePage(runs: seq<ActionRun>, q: HistoryQuery, compareIds: (Text, Text) -> int)
    ensures MemoryPage(runs, Paged(q, None, None), compareIds) == Matching(runs, q, compareIds)
    ensures KeysetPage(runs, Paged(q, None, None), compareIds) == Matching(runs, q, compareIds)
  {
    hide Sort, Filter, MatchesHistory;
    var q' := Paged(q, None, None);
    SameMatching(runs, q, q', compareIds);
    KeysetWhole(runs, q', compareIds);
  }

  lemma KeysetWhole(runs: seq<ActionRun>, q: HistoryQuery, compareIds: (Text, Text) -> int)
    requires q.cursor.None?
    ensures KeysetMatching(runs, q, compareIds) == Matching(runs, q, compareIds)
  {
    var cursor: Option<ActionRun>, order := None, NewestFirst(compareIds);
    FilterExtensional(runs, r => MatchesHistory(r, q) && (cursor.Some? ==> order(cursor.value, r) < 0),
                      r => MatchesHistory(r, q));
  }

  /** A page is determined by the list it is cut from. */
  lemma PageFollowsList(table: seq<ActionRun>, stored: seq<ActionRun>, q: HistoryQuery, q': HistoryQuery,
                        a: (Text, Text) -> int, b: (Text, Text) -> int)
    requires q' == q.(cursor := q'.cursor, limit := q'.limit)
    requires Matching(table, q, a) == Matching(stored, q, b)
    ensures MemoryPage(table, q', a) == MemoryPage(stored, q', b)
  {
    hide Matching;
    SameMatching(table, q, q', a);
    SameMatching(stored, q, q', b);
  }

  /** When no ids tie, the list does not depend on the order the runs are stored in. */
  lemma StorageOrderIsIrrelevant(table: seq<ActionRun>, stored: seq<ActionRun>, q: HistoryQuery,
                                 compareIds: (Text, Text) -> int)
    requires DistinctIds(table) && DistinctIds(stored) && Consistent(compareIds)
    requires (forall r :: r in table <==> r in stored) && IdsApart(Hits(stored, q), compareIds)
    ensures IdsApart(Hits(table, q), compareIds)
    ensures Matching(table, q, compareIds) == Matching(stored, q, compareIds)
  {
    hide Sort, Filter, Consistent, StrictlySorted, DistinctIds;
    HitsDistinct(table, q);
    HitsDistinct(stored, q);
    SortedStrictly(Hits(table, q), compareIds);
    SortedStrictly(Hits(stored, q), compareIds);
    OrderConsistent(compareIds);
    SortMembers(Hits(table, q), NewestFirst(compareIds));
    SortMembers(Hits(stored, q), NewestFirst(compareIds));
    SameStrict(Matching(table, q, compareIds), Matching(stored, q, compareIds), Hits(stored, q), compareIds);
  }

  lemma SameStrict(x: seq<ActionRun>, y: seq<ActionRun>, hits: seq<ActionRun>, b: (Text, Text) -> int)
    requires Consistent(NewestFirst(b))
    requires StrictlySorted(x, NewestFirst(b)) && StrictlySorted(y, NewestFirst(b))
    requires (forall r :: r in x <==> r in hits) && (forall r :: r in y <==> r in hits)
    ensures x == y
  {
    hide StrictlySorted, Transitive, Antisymmetric;
    StrictlySortedUnique(x, y, NewestFirst(b));
  }

  /**
   Two stores hold the same runs, one queried by keyset under its order on ids, one by index slice
   under its own. They return the same page for every cursor and limit exactly when the keyset
   order ties no two matching runs of one time and both orders decide every such pair alike.
   */
  lemma StoresAgreeIff(table: seq<ActionRun>, stored: seq<ActionRun>, q: HistoryQuery,
                       keysetOrder: (Text, Text) -> int, memoryOrder: (Text, Text) -> int)
    requires DistinctIds(table) && DistinctIds(stored) && forall r :: r in table <==> r in stored
    requires Consistent(keysetOrder) && Consistent(memoryOrder)
    ensures (forall cursor, limit ::
               KeysetPage(table, Paged(q, cursor, limit), keysetOrder)
                 == MemoryPage(stored, Paged(q, cursor, limit), memoryOrder))
      <==> IdsApart(Hits(stored, q), keysetOrder) && StayAlike(Hits(stored, q), keysetOrder, memoryOrder)
  {
    hide MemoryPage, KeysetPage, Matching, DistinctIds, Consistent, IdsApart, StayAlike, Hits;
    if IdsApart(Hits(stored, q), keysetOrder) && StayAlike(Hits(stored, q), keysetOrder, memoryOrder) {
      forall cursor, limit
        ensures KeysetPage(table, Paged(q, cursor, limit), keysetOrder)
             == MemoryPage(stored, Paged(q, cursor, limit), memoryOrder)
      {
        StoresAgree(table, stored, q, Paged(q, cursor, limit), keysetOrder, memoryOrder);
      }
    } else if forall cursor, limit ::
        KeysetPage(table, Paged(q, cursor, limit), keysetOrder)
          == MemoryPage(stored, Paged(q, cursor, limit), memoryOrder) {
      AgreementNeeds(table, stored, q, keysetOrder, memoryOrder);
    }
  }

  lemma StoresAgree(table: seq<ActionRun>, stored: seq<ActionRun>, q: HistoryQuery, q': HistoryQuery,
                    keysetOrder: (Text, Text) -> int, memoryOrder: (Text, Text) -> int)
    requires DistinctIds(table) && DistinctIds(stored) && forall r :: r in table <==> r in stored
    requires Consistent(keysetOrder) && Consistent(memoryOrder) && q' == q.(cursor := q'.cursor, limit := q'.limit)
    requires IdsApart(Hits(stored, q), keysetOrder) && StayAlike(Hits(stored, q), keysetOrder, memoryOrder)
    ensures KeysetPage(table, q', keysetOrder) == MemoryPage(stored, q', memoryOrder)
  {
    hide MemoryPage, KeysetPage, Matching, DistinctIds, Consistent, IdsApart, StayAlike, Hits;
    StorageOrderIsIrrelevant(table, stored, q, keysetOrder);
    SameListIff(stored, q, keysetOrder, memoryOrder);
    PageFollowsList(table, stored, q, q', keysetOrder, memoryOrder);
    SameHits(table, q, q');
    IndexSliceIsKeyset(table, q', keysetOrder);
  }

  lemma AgreementNeeds(table: seq<ActionRun>, stored: seq<ActionRun>, q: HistoryQuery,
                       keysetOrder: (Text, Text) -> int, memoryOrder: (Text, Text) -> int)
    requires DistinctIds(table) && DistinctIds(stored) && forall r :: r in table <==> r in stored
    requires Consistent(keysetOrder) && Consistent(memoryOrder)
    requires forall cursor, limit ::
      KeysetPage(table, Paged(q, cursor, limit), keysetOrder)
        == MemoryPage(stored, Paged(q, cursor, limit), memoryOrder)
    ensures IdsApart(Hits(stored, q), keysetOrder) && StayAlike(Hits(stored, q), keysetOrder, memoryOrder)
  {
    hide MemoryPage, KeysetPage, Matching, DistinctIds, Consistent, StayAlike, Hits;
    WholePage(table, q, keysetOrder);
    WholePage(stored, q, memoryOrder);
    assert KeysetPage(table, Paged(q, None, None), keysetOrder) == MemoryPage(stored, Paged(q, None, None), memoryOrder);
    forall cursor, limit
      ensures MemoryPage(table, Paged(q, cursor, limit), keysetOrder) == KeysetPage(table, Paged(q, cursor, limit), keysetOrder)
    {
      PageFollowsList(table, stored, q, Paged(q, cursor, limit), keysetOrder, memoryOrder);
    }
    PagesAgreeIffApart(table, q, keysetOrder);
    assert forall r :: r in Hits(table, q) <==> r in Hits(stored, q);
    StorageOrderIsIrrelevant(table, stored, q, keysetOrder);
    SameListIff(stored, q, keysetOrder, memoryOrder);
  }

  /** The two comparators order the ids of runs created at the same time alike. */
  ghost predicate OrderAlike(runs: seq<ActionRun>, a: (Text, Text) -> int, b: (Text, Text) -> int) {
    forall x, y | x in runs && y in runs && x.createdAt == y.createdAt ::
      a(x.id, y.id) < 0 <==> b(x.id, y.id) < 0
  }

  /** Against an order without ties: ordering the ids alike is deciding pairs alike without ties. */
  lemma AlikeWhenApart(runs: seq<ActionRun>, a: (Text, Text) -> int, b: (Text, Text) -> int)
    requires DistinctIds(runs) && Consistent(a) && Consistent(b) && IdsApart(runs, a)
    ensures OrderAlike(runs, a, b) <==> StayAlike(runs, a, b) && IdsApart(runs, b)
  {
    hide Transitive;
    if OrderAlike(runs, a, b) {
      forall i, j | 0 <= i < j < |runs| && runs[i].createdAt == runs[j].createdAt
        ensures a(runs[j].id, runs[i].id) <= 0 <==> b(runs[j].id, runs[i].id) <= 0
      {
        assert runs[i] in runs && runs[j] in runs;
        PairApart(runs, a, b, runs[j], runs[i]);
      }
      forall x, y | x in runs && y in runs && x.id != y.id && x.createdAt == y.createdAt ensures b(x.id, y.id) != 0 {
        PairApart(runs, a, b, x, y);
      }
    }
    if StayAlike(runs, a, b) && IdsApart(runs, b) {
      forall x, y | x in runs && y in runs && x.createdAt == y.createdAt
        ensures a(x.id, y.id) < 0 <==> b(x.id, y.id) < 0
      {
        PairAlike(runs, a, b, x, y);
      }
    }
  }

  lemma PairApart(runs: seq<ActionRun>, a: (Text, Text) -> int, b: (Text, Text) -> int, x: ActionRun, y: ActionRun)
    requires Antisymmetric(a) && Antisymmetric(b) && IdsApart(runs, a) && OrderAlike(runs, a, b)
    requires x in runs && y in runs && x.id != y.id && x.createdAt == y.createdAt
    ensures b(x.id, y.id) != 0 && (a(x.id, y.id) <= 0 <==> b(x.id, y.id) <= 0)
  {
    Mirrored(a, x.id, y.id);
    Mirrored(b, x.id, y.id);
    assert a(y.id, x.id) < 0 <==> b(y.id, x.id) < 0;
  }

  lemma PairAlike(runs: seq<ActionRun>, a: (Text, Text) -> int, b: (Text, Text) -> int, x: ActionRun, y: ActionRun)
    requires DistinctIds(runs) && Antisymmetric(a) && Antisymmetric(b) && IdsApart(runs, a) && IdsApart(runs, b)
    requires StayAlike(runs, a, b) && x in runs && y in runs && x.createdAt == y.createdAt
    ensures a(x.id, y.id) < 0 <==> b(x.id, y.id) < 0
  {
    hide DistinctIds;
    var i :| 0 <= i < |runs| && runs[i] == x;
    var j :| 0 <= j < |runs| && runs[j] == y;
    Mirrored(a, x.id, y.id);
    Mirrored(b, x.id, y.id);
    if x == y {
      Mirrored(a, x.id, x.id);
      Mirrored(b, x.id, x.id);
    } else {
      DifferentIds(runs, x, y);
      assert i < j || j < i;
    }
  }

  lemma DifferentIds(runs: seq<ActionRun>, x: ActionRun, y: ActionRun)
    requires DistinctIds(runs) && x in runs && y in runs && x != y
    ensures x.id != y.id
  {
    if x.id == y.id {
      SameIdSameRun(runs, x, y);
    }
  }

  function RunNamed(id: Text): ActionRun {
    NewRun(CreateInput([], Actor([], [], None), None, None, Json.Null, None, None, Reversibility(Full, true), None, None),
           id, 0)
  }

  const SHORTEST_FIRST := (s: Text, t: Text) => |s| - |t|
  const LONGEST_FIRST := (s: Text, t: Text) => |t| - |s|
  const EVERY_RUN := HistoryQuery(None, None, None, None, None, None, None, None, None)

  lemma LengthsOrder()
    ensures Consistent(SHORTEST_FIRST) && Consistent(LONGEST_FIRST)
  {
  }

  /**
   Neither order ties anything, and still two stores with the same two runs of one millisecond list
   them differently.
   */
  lemma OrdersCanDisagree(runs: seq<ActionRun>)
    requires runs == [RunNamed([1]), RunNamed([1, 1])]
    ensures DistinctIds(runs) && Hits(runs, EVERY_RUN) == runs
    ensures Consistent(SHORTEST_FIRST) && IdsApart(runs, SHORTEST_FIRST)
    ensures Consistent(LONGEST_FIRST) && IdsApart(runs, LONGEST_FIRST)
    ensures KeysetPage(runs, EVERY_RUN, SHORTEST_FIRST) != MemoryPage(runs, EVERY_RUN, LONGEST_FIRST)
  {
    hide KeysetPage, MemoryPage, Matching, Consistent, Hits;
    LengthsOrder();
    EveryRunHits(runs, runs[0], runs[1]);
    SameListIff(runs, EVERY_RUN, SHORTEST_FIRST, LONGEST_FIRST);
    WholePage(runs, EVERY_RUN, SHORTEST_FIRST);
    WholePage(runs, EVERY_RUN, LONGEST_FIRST);
    assert runs[0].createdAt == runs[1].createdAt && runs[0].id == [1] && runs[1].id == [1, 1];
    assert Paged(EVERY_RUN, None, None) == EVERY_RUN;
  }

  lemma EveryRunHits(runs: seq<ActionRun>, x: ActionRun, y: ActionRun)
    requires runs == [x, y]
    ensures Hits(runs, EVERY_RUN) == runs
  {
    assert runs[1..] == [y] && [y][1..] == [];
    assert MatchesHistory(x, EVERY_RUN) && MatchesHistory(y, EVERY_RUN);
    var p := (r: ActionRun) => MatchesHistory(r, EVERY_RUN);
    assert Filter([], p) == [];
    assert Filter([y], p) == [y];
  }

  lemma TailSorted(all: seq<ActionRun>, k: nat, order: (ActionRun, ActionRun) -> int)
    requires StrictlySorted(all, order) && k <= |all|
    ensures StrictlySorted(all[k..], order)
  {
  }

  /** The cursor is in the filtered list exactly when its run exists and matches the filters. */
  lemma CursorFound(runs: seq<ActionRun>, q: HistoryQuery, compareIds: (Text, Text) -> int)
    requires DistinctIds(runs) && q.cursor.Some?
    ensures var found := FindIndex(Matching(runs, q, compareIds), q.cursor.value);
      && found.Some? == CursorRun(runs, q).Some?
      && (found.Some? ==> Matching(runs, q, compareIds)[found.value] == CursorRun(runs, q).value)
  {
    hide MatchesHistory, NewestFirst, Filter, Sort;
    var all := Matching(runs, q, compareIds);
    SortMembers(Hits(runs, q), NewestFirst(compareIds));
    var found := FindIndex(all, q.cursor.value);
    var stored := FindIndex(runs, q.cursor.value);
    if found.Some? {
      assert all[found.value] in all;
      SameIdSameRun(runs, all[found.value], runs[stored.value]);
    }
    if stored.Some? && MatchesHistory(runs[stored.value], q) {
      assert runs[stored.value] in runs;
      assert runs[stored.value] in all;
    }
  }

  /** The page after position `k`, asked for by the id at that position: the next runs, up to the limit. */
  lemma PageAt(runs: seq<ActionRun>, q: HistoryQuery, compareIds: (Text, Text) -> int, k: nat)
    requires DistinctIds(runs)
    requires k < |Matching(runs, q, compareIds)|
    ensures var all := Matching(runs, q, compareIds);
      && MemoryPage(runs, q.(cursor := Some(all[k].id)), compareIds) == Limited(all[k + 1..], q.limit)
      && MemoryPage(runs, q.(cursor := Some(all[k].id)), compareIds)
           == all[k + 1..k + 1 + Count(q.limit, |all| - k - 1)]
  {
    hide Matching, Limited;
    LimitedIs(Matching(runs, q, compareIds)[k + 1..], q.limit);
    var all := Matching(runs, q, compareIds);
    var q' := q.(cursor := Some(all[k].id));
    MatchingIsExact(runs, q, compareIds);
    SameMatching(runs, q, q', compareIds);
    var i := FindIndex(all, all[k].id);
    assert all[k] in all;
    assert i.value == k;
  }

  lemma {:induction false} FilterExtensional(runs: seq<ActionRun>, p: ActionRun -> bool, p': ActionRun -> bool)
    requires forall x :: p(x) == p'(x)
    ensures Filter(runs, p) == Filter(runs, p')
    decreases |runs|
  {
    if runs != [] {
      FilterExtensional(runs[1..], p, p');
    }
  }

  /**
   Every page is a stretch of the ordered list of matching runs: from its start, or from just after
   the run the cursor names when that run is in the list, and exactly as long as limit and list allow.
   */
  lemma PageIs(runs: seq<ActionRun>, q: HistoryQuery, compareIds: (Text, Text) -> int) returns (from: nat)
    requires DistinctIds(runs)
    ensures var all := Matching(runs, q, compareIds);
      && from <= |all|
      && MemoryPage(runs, q, compareIds) == all[from..from + Count(q.limit, |all| - from)]
      && (from > 0 ==> q.cursor == Some(all[from - 1].id))
      && (from == 0 ==> q.cursor.None? || forall r | r in all :: r.id != q.cursor.value)
  {
    hide Matching, Limited, Filter, Sort;
    var all := Matching(runs, q, compareIds);
    var found := if q.cursor.None? then None else FindIndex(all, q.cursor.value);
    from := if found.None? then 0 else found.value + 1;
    assert all[0..] == all;
    LimitedIs(all[from..], q.limit);
    assert AfterCursor(all, q.cursor) == all[from..];
  }

  /**
   The list holds exactly the runs that have each property the query gives, each once, newest first
   and by descending id within one millisecond.
   */
  lemma ListedAre(runs: seq<ActionRun>, q: HistoryQuery, compareIds: (Text, Text) -> int)
    requires DistinctIds(runs) && Consistent(compareIds)
    ensures var all := Matching(runs, q, compareIds);
      && DistinctIds(all)
      && (forall r :: r in all <==>
            && r in runs
            && (q.tenantId.Some? ==> r.tenantId == q.tenantId)
            && (q.actorId.Some? ==> r.actor.id == q.actorId.value)
            && (q.actorType.Some? ==> r.actor.kind == q.actorType.value)
            && (q.targetType.Some? ==> r.target.Some? && r.target.value.kind == q.targetType.value)
            && (q.targetId.Some? ==> r.target.Some? && r.target.value.id == q.targetId.value)
            && (q.name.Some? ==> r.name == q.name.value)
            && (q.status.Some? ==> r.status == q.status.value))
      && (forall i, j :: 0 <= i < j < |all| ==>
            || all[i].createdAt > all[j].createdAt
            || (all[i].createdAt == all[j].createdAt && compareIds(all[i].id, all[j].id) >= 0))
  {
    hide Hits, Sort, Transitive;
    MatchingIsExact(runs, q, compareIds);
    OrderConsistent(compareIds);
    SortSorted(Hits(runs, q), NewestFirst(compareIds));
    var all := Matching(runs, q, compareIds);
    forall i, j | 0 <= i < j < |all|
      ensures all[i].createdAt > all[j].createdAt
           || (all[i].createdAt == all[j].createdAt && compareIds(all[i].id, all[j].id) >= 0)
    {
      assert NewestFirst(compareIds)(all[i], all[j]) <= 0;
      assert compareIds(all[j].id, all[i].id) <= 0 <==> 0 <= compareIds(all[i].id, all[j].id);
    }
  }

  /**
   What a keyset query keeps: the matching runs created before the cursor's run, or with it and with
   a smaller id, in the same order; all of them when the cursor names no matching run.
   */
  lemma KeysetAre(runs: seq<ActionRun>, q: HistoryQuery, compareIds: (Text, Text) -> int)
    requires DistinctIds(runs) && Consistent(compareIds)
    ensures var rest, all := KeysetMatching(runs, q, compareIds), Matching(runs, q, compareIds);
      && KeysetPage(runs, q, compareIds) == rest[..Count(q.limit, |rest|)]
      && (forall r :: r in rest <==>
            && r in all
            && forall c | c in all && q.cursor == Some(c.id) ::
                 r.createdAt < c.createdAt || (r.createdAt == c.createdAt && compareIds(r.id, c.id) < 0))
      && (forall i, j :: 0 <= i < j < |rest| ==>
            || rest[i].createdAt > rest[j].createdAt
            || (rest[i].createdAt == rest[j].createdAt && compareIds(rest[i].id, rest[j].id) >= 0))
  {
    hide Matching, KeysetMatching, Sort, Transitive, Limited, CursorRun, FindIndex;
    var rest, all := KeysetMatching(runs, q, compareIds), Matching(runs, q, compareIds);
    LimitedIs(rest, q.limit);
    KeysetMembers(runs, q, compareIds);
    MatchingIsExact(runs, q, compareIds);
    if q.cursor.Some? {
      CursorFound(runs, q, compareIds);
      CursorIsThere(all, q, FindIndex(all, q.cursor.value), CursorRun(runs, q));
    } else {
      assert CursorRun(runs, q).None? by {
        NoCursor(runs, q);
      }
    }
    KeysetSorted(runs, q, compareIds);
  }

  lemma NoCursor(runs: seq<ActionRun>, q: HistoryQuery)
    requires q.cursor.None?
    ensures CursorRun(runs, q).None?
  {
  }

  lemma CursorIsThere(all: seq<ActionRun>, q: HistoryQuery, found: Option<nat>, cursor: Option<ActionRun>)
    requires q.cursor.Some? && DistinctIds(all) && found == FindIndex(all, q.cursor.value)
    requires found.Some? == cursor.Some? && (found.Some? ==> all[found.value] == cursor.value)
    ensures forall c :: c in all && q.cursor == Some(c.id) <==> cursor == Some(c)
  {
    forall c ensures c in all && q.cursor == Some(c.id) <==> cursor == Some(c) {
      if c in all && q.cursor == Some(c.id) {
        SameIdSameRun(all, c, all[found.value]);
      }
    }
  }

  lemma KeysetSorted(runs: seq<ActionRun>, q: HistoryQuery, compareIds: (Text, Text) -> int)
    requires Consistent(compareIds)
    ensures var rest := KeysetMatching(runs, q, compareIds);
      forall i, j :: 0 <= i < j < |rest| ==>
        || rest[i].createdAt > rest[j].createdAt
        || (rest[i].createdAt == rest[j].createdAt && compareIds(rest[i].id, rest[j].id) >= 0)
  {
    hide Sort, Transitive, CursorRun, Filter;
    var cursor, order := CursorRun(runs, q), NewestFirst(compareIds);
    var later := (r: ActionRun) => MatchesHistory(r, q) && (cursor.Some? ==> order(cursor.value, r) < 0);
    OrderConsistent(compareIds);
    SortSorted(Filter(runs, later), order);
    var rest := KeysetMatching(runs, q, compareIds);
    forall i, j | 0 <= i < j < |rest|
      ensures rest[i].createdAt > rest[j].createdAt
           || (rest[i].createdAt == rest[j].createdAt && compareIds(rest[i].id, rest[j].id) >= 0)
    {
      assert order(rest[i], rest[j]) <= 0;
      assert compareIds(rest[j].id, rest[i].id) <= 0 <==> 0 <= compareIds(rest[i].id, rest[j].id);
    }
  }

  /**
   Asking for pages by the last id seen until one comes back empty yields every run once; every page
   but the last is full, and `pages` are their lengths.
   */
  method WalkPages(runs: seq<ActionRun>, q: HistoryQuery, compareIds: (Text, Text) -> int, size: int)
    returns (seen: seq<ActionRun>, pages: seq<nat>)
    requires DistinctIds(runs) && size > 0
    ensures seen == Matching(runs, q, compareIds)
    ensures DistinctIds(seen)
    ensures FullButLast(pages, size) && |seen| == Total(pages)
    ensures forall r :: r in seen <==> r in runs && MatchesHistory(r, q)
  {
    hide Limited, Matching, MemoryPage, DistinctIds, MatchesHistory, Total, FullButLast, Count;
    NoPages(size);
    var paged := q.(limit := Some(size), cursor := None);
    ghost var all := Matching(runs, q, compareIds);
    MatchingIsExact(runs, q, compareIds);
    SameMatching(runs, q, paged, compareIds);
    seen, pages := [], [];
    FirstPage(runs, paged, compareIds);
    var page := MemoryPage(runs, paged, compareIds);
    while page != []
      invariant |seen| <= |all| && seen == all[..|seen|]
      invariant page == Limited(all[|seen|..], Some(size))
      invariant FullButLast(pages, size) && |seen| == Total(pages)
      invariant pages != [] && pages[|pages| - 1] < size ==> |seen| == |all|
      decreases |all| - |seen|
    {
      NextPage(all, |seen|, size);
      PageSize(all, |seen|, size);
      OnePageMore(pages, |page|, size);
      seen, pages := seen + page, pages + [|page|];
      PageAt(runs, paged, compareIds, |seen| - 1);
      page := MemoryPage(runs, paged.(cursor := Some(seen[|seen| - 1].id)), compareIds);
    }
    NextPage(all, |seen|, size);
  }

  function Total(lengths: seq<nat>): nat {
    if lengths == [] then 0 else Total(lengths[..|lengths| - 1]) + lengths[|lengths| - 1]
  }

  /** No page is empty or too long, and only the last may be short. */
  predicate FullButLast(lengths: seq<nat>, size: int) {
    forall i | 0 <= i < |lengths| :: 0 < lengths[i] <= size && (i < |lengths| - 1 ==> lengths[i] == size)
  }

  lemma NoPages(size: int)
    ensures FullButLast([], size) && Total([]) == 0
  {
  }

  lemma OnePageMore(lengths: seq<nat>, next: nat, size: int)
    requires FullButLast(lengths, size) && 0 < next <= size
    requires lengths != [] ==> lengths[|lengths| - 1] >= size
    ensures FullButLast(lengths + [next], size) && Total(lengths + [next]) == Total(lengths) + next
  {
    assert (lengths + [next])[..|lengths|] == lengths;
  }

  lemma FirstPage(runs: seq<ActionRun>, q: HistoryQuery, compareIds: (Text, Text) -> int)
    requires q.cursor.None?
    ensures MemoryPage(runs, q, compareIds) == Limited(Matching(runs, q, compareIds)[0..], q.limit)
  {
    var all := Matching(runs, q, compareIds);
    assert all[0..] == all;
  }

  lemma MatchingIsExact(runs: seq<ActionRun>, q: HistoryQuery, compareIds: (Text, Text) -> int)
    requires DistinctIds(runs)
    ensures DistinctIds(Matching(runs, q, compareIds))
    ensures forall r :: r in Matching(runs, q, compareIds) <==> r in runs && MatchesHistory(r, q)
  {
    var order, id := NewestFirst(compareIds), (r: ActionRun) => r.id;
    FilterDistinct(runs, r => MatchesHistory(r, q));
    SortDistinct(Hits(runs, q), order, id);
    SortMembers(Hits(runs, q), order);
    var all := Matching(runs, q, compareIds);
    forall i, j | 0 <= i < j < |all| ensures all[i].id != all[j].id {
      assert id(all[i]) != id(all[j]);
    }
  }

  /** A page is never longer than asked, and shorter only at the end. */
  lemma PageSize(all: seq<ActionRun>, n: nat, size: int)
    requires n <= |all| && size > 0
    ensures var page := Limited(all[n..], Some(size)); |page| <= size && (|page| < size ==> n + |page| == |all|)
  {
    LimitedIs(all[n..], Some(size));
  }

  /** A page is the next stretch of the list, and is empty only at its end. */
  lemma NextPage(all: seq<ActionRun>, n: nat, size: int)
    requires n <= |all| && size > 0
    ensures var page := Limited(all[n..], Some(size));
      && (page == [] <==> n == |all|)
      && n + |page| <= |all|
      && all[..n] + page == all[..n + |page|]
  {
  }

  lemma {:induction false} SameMatching(runs: seq<ActionRun>, q: HistoryQuery, q': HistoryQuery,
                                        compareIds: (Text, Text) -> int)
    requires q' == q.(cursor := q'.cursor, limit := q'.limit)
    ensures Matching(runs, q, compareIds) == Matching(runs, q', compareIds)
  {
    FilterExtensional(runs, r => MatchesHistory(r, q), r => MatchesHistory(r, q'));
  }
}
