/**
 Any number of runners migrating one database. Each holds a session-level advisory lock while it
 ensures the table, reads its status, and applies the pending migrations in one transaction. Any
 statement may fail and any connection may be lost at any point, a `COMMIT` that takes effect but
 whose answer never arrives included. Each runner has a session of its own.
 */
module MigrationProtocol {
  import opened Prelude
  import opened JsonText
  import opened Sorting
  import opened MigrationStatus

  type RunnerId = nat

  datatype Config = Config(bundle: seq<Migration>, checksum: Checksum, compareIds: (Text, Text) -> int)

  datatype Outcome = Failed | Succeeded(applied: seq<Migration>, skipped: seq<Migration>)

  datatype Pc =
    | Idle
    | Locked
    | Ensured
    | Pending
    | Applying(status: Status, done: nat, startedAt: int)
    | Leaving(outcome: Outcome)
    | Done(outcome: Outcome)

  datatype Runner = Runner(allowBackfill: bool, pc: Pc)

  /** A committed transaction: whose it was, what it applied, and whether its runner got the answer. */
  datatype Report = Report(r: RunnerId, applied: seq<Migration>, answered: bool)

  /** What the open transaction has inserted and run, none of it committed. */
  datatype Transaction = Transaction(inserted: seq<Row>, ran: seq<Text>)

  const NOTHING := Transaction([], [])

  /**
   `rows` and `executed` are committed: the rows of the table and the ids whose SQL has taken
   effect. `commits` lists the transactions that did it, `open` is the one under way.
   */
  datatype State = State(
    rows: seq<Row>, clock: int, lock: Option<RunnerId>, runners: map<RunnerId, Runner>,
    executed: seq<Text>, commits: seq<Report>, open: Transaction)

  datatype Event =
    | Join(r: RunnerId, allowBackfill: bool)
    | Acquire(r: RunnerId)
    | LockTimeout(r: RunnerId)
    | EnsureTable(r: RunnerId)
    | EnsureFails(r: RunnerId, repaired: nat)
    | Check(r: RunnerId)
    | Begin(r: RunnerId, now: int)
    | ApplyOne(r: RunnerId)
    | Commit(r: RunnerId, answered: bool)
    | StatementFails(r: RunnerId)
    | Unlock(r: RunnerId)
    | ConnectionLost(r: RunnerId)

  function Start(rows: seq<Row>, clock: int): State {
    State(rows, clock, None, map[], [], [], NOTHING)
  }

  /** The status a runner computes from the rows it reads. */
  function Current(rows: seq<Row>, cfg: Config): Result<Status, Failure> {
    match ReadApplied(rows, cfg.compareIds)
    case Err(e) => Err(e)
    case Ok(applied) => CreateStatus(applied, cfg.bundle, cfg.checksum)
  }

  /** The rows one transaction inserts; `now()` is the time it started. */
  function NewRows(ms: seq<Migration>, now: int, checksum: Checksum): (r: seq<Row>)
    ensures |r| == |ms|
    ensures forall i :: 0 <= i < |r| ==> r[i] == Row(ms[i].id, Some(checksum(ms[i].sql)), now)
  {
    seq(|ms|, i requires 0 <= i < |ms| => Row(ms[i].id, Some(checksum(ms[i].sql)), now))
  }

  function Ids(ms: seq<Migration>): (r: seq<Text>)
    ensures |r| == |ms|
    ensures forall i :: 0 <= i < |r| ==> r[i] == ms[i].id
  {
    seq(|ms|, i requires 0 <= i < |ms| => ms[i].id)
  }

  predicate At(s: State, r: RunnerId) {
    r in s.runners && s.lock == Some(r)
  }

  function Move(s: State, r: RunnerId, pc: Pc): State
    requires r in s.runners
  {
    s.(runners := s.runners[r := s.runners[r].(pc := pc)])
  }

  function Apply(s: State, e: Event, cfg: Config): Option<State> {
    match e
    case Join(r, allow) =>
      if r in s.runners then None else Some(s.(runners := s.runners[r := Runner(allow, Idle)]))
    case Acquire(r) =>
      if r in s.runners && s.runners[r].pc.Idle? && s.lock.None?
      then Some(Move(s.(lock := Some(r)), r, Locked)) else None
    case LockTimeout(r) =>
      if r in s.runners && s.runners[r].pc.Idle? then Some(Move(s, r, Done(Failed))) else None
    case EnsureTable(r) =>
      if At(s, r) && s.runners[r].pc.Locked? then
        match Ensure(s.rows, cfg.bundle, s.runners[r].allowBackfill, cfg.checksum)
        case Ok(rows) => Some(Move(s.(rows := rows), r, Ensured))
        case Err(_) => None
      else None
    case EnsureFails(r, n) =>
      if At(s, r) && s.runners[r].pc.Locked? && n <= |cfg.bundle| && (n > 0 ==> s.runners[r].allowBackfill)
      then Some(Move(s.(rows := Backfill(s.rows, cfg.bundle, n, cfg.checksum)), r, Leaving(Failed)))
      else None
    case Check(r) =>
      if At(s, r) && s.runners[r].pc.Ensured? then
        match Current(s.rows, cfg)
        case Err(_) => Some(Move(s, r, Leaving(Failed)))
        case Ok(status) =>
          Some(Move(s, r, if status.pending == [] then Leaving(Succeeded([], status.skipped)) else Pending))
      else None
    case Begin(r, now) =>
      if At(s, r) && s.runners[r].pc.Pending? && s.clock <= now then
        match Current(s.rows, cfg)
        case Err(_) => Some(Move(s.(clock := now), r, Leaving(Failed)))
        case Ok(status) =>
          Some(Move(s.(clock := now), r,
                    if status.pending == [] then Leaving(Succeeded([], status.skipped))
                    else Applying(status, 0, now)))
      else None
    case ApplyOne(r) =>
      if At(s, r) && s.runners[r].pc.Applying? && s.runners[r].pc.done < |s.runners[r].pc.status.pending|
      then
        var pc := s.runners[r].pc;
        var m := pc.status.pending[pc.done];
        var open := Transaction(s.open.inserted + [Row(m.id, Some(cfg.checksum(m.sql)), pc.startedAt)],
                                s.open.ran + [m.id]);
        Some(Move(s.(open := open), r, pc.(done := pc.done + 1)))
      else None
    case Commit(r, answered) =>
      if At(s, r) && s.runners[r].pc.Applying? && s.runners[r].pc.done == |s.runners[r].pc.status.pending|
      then
        var pc := s.runners[r].pc;
        Some(Move(s.(rows := s.rows + s.open.inserted, executed := s.executed + s.open.ran, open := NOTHING,
                     commits := s.commits + [Report(r, pc.status.pending, answered)]),
                  r, Leaving(if answered then Succeeded(pc.status.pending, pc.status.skipped) else Failed)))
      else None
    case StatementFails(r) =>
      if At(s, r) && !s.runners[r].pc.Leaving? then Some(Move(s.(open := NOTHING), r, Leaving(Failed))) else None
    case Unlock(r) =>
      if At(s, r) && s.runners[r].pc.Leaving?
      then Some(Move(s.(lock := None), r, Done(s.runners[r].pc.outcome))) else None
    case ConnectionLost(r) =>
      if At(s, r) then
        Some(Move(s.(lock := None, open := NOTHING), r,
                  Done(if s.runners[r].pc.Leaving? then s.runners[r].pc.outcome else Failed)))
      else None
  }

  function Run(s: State, events: seq<Event>, cfg: Config): Option<State>
    decreases |events|
  {
    if events == [] then Some(s)
    else
      match Apply(s, events[0], cfg)
      case None => None
      case Some(next) => Run(next, events[1..], cfg)
  }

  /** A bundle with ascending unique ids, a total order on ids, and checksums that are never blank. */
  ghost predicate GoodConfig(cfg: Config) {
    && Consistent(cfg.compareIds) && Separates(cfg.compareIds)
    && StrictlySorted(Ids(cfg.bundle), cfg.compareIds)
    && UniqueIds(cfg.bundle)
    && forall sql: Text :: !JsBlank(Some(cfg.checksum(sql)))
  }

  ghost predicate Inside(pc: Pc) {
    !pc.Idle? && !pc.Done?
  }

  ghost predicate RowIdsUnique(rows: seq<Row>) {
    forall i, j :: 0 <= i < j < |rows| ==> rows[i].id != rows[j].id
  }

  function Flatten(commits: seq<Report>): seq<Text> {
    if commits == [] then [] else Flatten(commits[..|commits| - 1]) + Ids(commits[|commits| - 1].applied)
  }

  /** What a runner that has stopped reports. */
  function OutcomeOf(pc: Pc): Option<Outcome> {
    match pc
    case Leaving(o) => Some(o)
    case Done(o) => Some(o)
    case _ => None
  }

  predicate ReportsApplied(pc: Pc, applied: seq<Migration>) {
    && OutcomeOf(pc).Some? && OutcomeOf(pc).value.Succeeded? && OutcomeOf(pc).value.applied == applied
  }

  /**
   Each commit is reported by its runner, unless the answer was lost and the runner failed; and each
   non-empty report is a commit.
   */
  ghost predicate ReportsMatch(s: State) {
    && (forall k :: 0 <= k < |s.commits| ==>
          && s.commits[k].r in s.runners && s.commits[k].applied != []
          && var pc := s.runners[s.commits[k].r].pc;
             if s.commits[k].answered then ReportsApplied(pc, s.commits[k].applied)
             else OutcomeOf(pc) == Some(Failed))
    && (forall k, l :: 0 <= k < l < |s.commits| ==> s.commits[k].r != s.commits[l].r)
    && (forall r :: r in s.runners && OutcomeOf(s.runners[r].pc).Some? ==>
          var o := OutcomeOf(s.runners[r].pc).value;
          o.Succeeded? && o.applied != [] ==> Report(r, o.applied, true) in s.commits)
  }

  /** The rows are the initial ones, then one per executed id, which continue the bundle. */
  ghost predicate RowsGrow(s: State, init: seq<Row>, cfg: Config) {
    && RowIdsUnique(s.rows)
    && |s.rows| == |init| + |s.executed|
    && (forall i :: 0 <= i < |init| ==> s.rows[i].id == init[i].id)
    && (forall i :: 0 <= i < |s.executed| ==> s.rows[|init| + i].id == s.executed[i])
    && (s.executed != [] ==> |s.rows| <= |cfg.bundle| && s.executed == Ids(cfg.bundle)[|init|..|s.rows|])
    && s.executed == Flatten(s.commits)
    && (forall i :: 0 <= i < |s.rows| ==> s.rows[i].appliedAt <= s.clock)
  }

  ghost predicate LockHeld(s: State) {
    && (forall r :: r in s.runners && Inside(s.runners[r].pc) ==> s.lock == Some(r))
    && (s.lock.Some? ==> s.lock.value in s.runners && Inside(s.runners[s.lock.value].pc))
  }

  /** A runner that is applying still sees the status it computed under the lock. */
  ghost predicate StatusCurrent(s: State, cfg: Config) {
    forall r :: r in s.runners && s.runners[r].pc.Applying? ==>
      && Current(s.rows, cfg) == Ok(s.runners[r].pc.status)
      && s.runners[r].pc.startedAt <= s.clock
      && s.runners[r].pc.status.pending != []
      && (forall i :: 0 <= i < |s.rows| ==> s.rows[i].appliedAt <= s.runners[r].pc.startedAt)
  }

  /** The open transaction holds the work of the runner that is applying, and nothing when none is. */
  ghost predicate OpenOk(s: State, cfg: Config) {
    && (forall r :: r in s.runners && s.runners[r].pc.Applying? ==>
          var pc := s.runners[r].pc;
          && pc.done <= |pc.status.pending|
          && s.open.inserted == NewRows(pc.status.pending[..pc.done], pc.startedAt, cfg.checksum)
          && s.open.ran == Ids(pc.status.pending[..pc.done]))
    && ((forall r :: r in s.runners ==> !s.runners[r].pc.Applying?) ==> s.open == NOTHING)
  }

  ghost predicate Inv(s: State, init: seq<Row>, cfg: Config) {
    RowsGrow(s, init, cfg) && LockHeld(s) && StatusCurrent(s, cfg) && ReportsMatch(s) && OpenOk(s, cfg)
  }

  // ---------------------------------------------------------------- reading back what was committed

  lemma RowOrderGood(compareIds: (Text, Text) -> int)
    requires Consistent(compareIds)
    ensures Consistent(RowOrder(compareIds))
  {
    var order := RowOrder(compareIds);
    forall a: Row, b: Row ensures order(a, b) <= 0 <==> 0 <= order(b, a) {
      assert compareIds(a.id, b.id) <= 0 <==> 0 <= compareIds(b.id, a.id);
    }
    forall a: Row, b: Row, c: Row | order(a, b) <= 0 && order(b, c) <= 0 ensures order(a, c) <= 0 {
      assert compareIds(a.id, b.id) <= 0 && compareIds(b.id, c.id) <= 0;
    }
  }

  /** Rows with unique ids are read in strictly ascending order. */
  lemma ReadsAscending(rows: seq<Row>, compareIds: (Text, Text) -> int)
    requires RowIdsUnique(rows) && Consistent(compareIds) && Separates(compareIds)
    ensures StrictlySorted(Sort(rows, RowOrder(compareIds)), RowOrder(compareIds))
    ensures forall x :: x in Sort(rows, RowOrder(compareIds)) <==> x in rows
  {
    var order := RowOrder(compareIds);
    RowOrderGood(compareIds);
    SortStrict(rows, order);
    SortMembers(rows, order);
  }

  /** A status shows the rows to be the first of the bundle, whatever order they are stored in. */
  lemma StatusShowsPrefix(rows: seq<Row>, cfg: Config)
    requires GoodConfig(cfg) && Current(rows, cfg).Ok?
    ensures |rows| <= |cfg.bundle|
    ensures var sorted := Sort(rows, RowOrder(cfg.compareIds));
      && IsPrefix(MapRows(sorted), cfg.bundle) && TimesAscend(MapRows(sorted))
      && ChecksumsMatch(MapRows(sorted), cfg.bundle, cfg.checksum)
      && (forall i :: 0 <= i < |sorted| ==> !JsBlank(sorted[i].checksum))
      && Current(rows, cfg).value
           == Status(MapRows(sorted), cfg.bundle[..|rows|], cfg.bundle[|rows|..])
  {
    var sorted := Sort(rows, RowOrder(cfg.compareIds));
    StatusIsPrefix(MapRows(sorted), cfg.bundle, cfg.checksum);
  }

  /** Reading after a commit gives the old rows as read before, then the new ones in bundle order. */
  lemma ReadAfterCommit(rows: seq<Row>, now: int, cfg: Config)
    requires GoodConfig(cfg) && RowIdsUnique(rows) && Current(rows, cfg).Ok? && |rows| <= |cfg.bundle|
    ensures var all := rows + NewRows(cfg.bundle[|rows|..], now, cfg.checksum);
      && RowIdsUnique(all)
      && Sort(all, RowOrder(cfg.compareIds))
           == Sort(rows, RowOrder(cfg.compareIds)) + NewRows(cfg.bundle[|rows|..], now, cfg.checksum)
  {
    hide Current, Sort, TimesAscend, ChecksumsMatch, RowIdsUnique, GoodConfig, RowOrder, IsPrefix, MapRows, JsBlank;
    StatusShowsPrefix(rows, cfg);
    var sorted := Sort(rows, RowOrder(cfg.compareIds));
    SortedIds(sorted, cfg);
    ReadAppended(rows, sorted, NewRows(cfg.bundle[|rows|..], now, cfg.checksum), cfg);
  }

  /** Rows that continue the bundle are read after those already there. */
  lemma ReadAppended(rows: seq<Row>, sorted: seq<Row>, added: seq<Row>, cfg: Config)
    requires GoodConfig(cfg) && RowIdsUnique(rows)
    requires sorted == Sort(rows, RowOrder(cfg.compareIds)) && |sorted| + |added| == |cfg.bundle|
    requires forall i :: 0 <= i < |sorted| ==> sorted[i].id == cfg.bundle[i].id
    requires forall i :: 0 <= i < |added| ==> added[i].id == cfg.bundle[|sorted| + i].id
    ensures RowIdsUnique(rows + added)
    ensures Sort(rows + added, RowOrder(cfg.compareIds)) == sorted + added
  {
    hide Sort, StrictlySorted, RowIdsUnique, Consistent, Separates, UniqueIds, RowOrder;
    SortMembers(rows, RowOrder(cfg.compareIds));
    BundleOrder(sorted, added, cfg);
    NewIdsFresh(rows, sorted, added, cfg);
    SameMembersWith(sorted, rows, added);
    ReadIs(rows + added, sorted + added, cfg.compareIds);
  }

  lemma SameMembersWith(a: seq<Row>, b: seq<Row>, more: seq<Row>)
    requires forall x :: x in a <==> x in b
    ensures forall x :: x in a + more <==> x in b + more
  {
  }

  /** An ascending list of exactly the stored rows is what reading returns. */
  lemma ReadIs(rows: seq<Row>, expected: seq<Row>, compareIds: (Text, Text) -> int)
    requires RowIdsUnique(rows) && Consistent(compareIds) && Separates(compareIds)
    requires StrictlySorted(expected, RowOrder(compareIds))
    requires forall x :: x in expected <==> x in rows
    ensures Sort(rows, RowOrder(compareIds)) == expected
  {
    hide RowIdsUnique, Separates, Transitive, StrictlySorted, Sort, Antisymmetric, RowOrder;
    ReadsAscending(rows, compareIds);
    RowOrderGood(compareIds);
    StrictlySortedUnique(Sort(rows, RowOrder(compareIds)), expected, RowOrder(compareIds));
  }

  lemma SortedIds(sorted: seq<Row>, cfg: Config)
    requires IsPrefix(MapRows(sorted), cfg.bundle)
    ensures |sorted| <= |cfg.bundle|
    ensures forall i :: 0 <= i < |sorted| ==> sorted[i].id == cfg.bundle[i].id
  {
    assert forall i :: 0 <= i < |sorted| ==> MapRows(sorted)[i].id == sorted[i].id;
  }

  lemma BundleOrder(sorted: seq<Row>, added: seq<Row>, cfg: Config)
    requires GoodConfig(cfg) && |sorted| + |added| == |cfg.bundle|
    requires forall i :: 0 <= i < |sorted| ==> sorted[i].id == cfg.bundle[i].id
    requires forall i :: 0 <= i < |added| ==> added[i].id == cfg.bundle[|sorted| + i].id
    ensures StrictlySorted(sorted + added, RowOrder(cfg.compareIds))
  {
    var expected := sorted + added;
    var ids := Ids(cfg.bundle);
    forall i, j | 0 <= i < j < |expected| ensures RowOrder(cfg.compareIds)(expected[i], expected[j]) < 0 {
      assert expected[i].id == ids[i] && expected[j].id == ids[j];
      assert cfg.compareIds(ids[i], ids[j]) < 0;
    }
  }

  lemma NewIdsFresh(rows: seq<Row>, sorted: seq<Row>, added: seq<Row>, cfg: Config)
    requires UniqueIds(cfg.bundle) && RowIdsUnique(rows) && |sorted| + |added| == |cfg.bundle|
    requires forall x :: x in sorted <==> x in rows
    requires forall i :: 0 <= i < |sorted| ==> sorted[i].id == cfg.bundle[i].id
    requires forall i :: 0 <= i < |added| ==> added[i].id == cfg.bundle[|sorted| + i].id
    ensures RowIdsUnique(rows + added)
  {
    var all := rows + added;
    forall i, j | 0 <= i < j < |all| ensures all[i].id != all[j].id {
      if i < |rows| && |rows| <= j {
        assert rows[i] in rows;
        var k :| 0 <= k < |sorted| && sorted[k] == rows[i];
        assert cfg.bundle[k].id != cfg.bundle[|sorted| + (j - |rows|)].id;
      }
    }
  }

  /** After a commit the next status succeeds with nothing pending. */
  lemma CommitCompletes(rows: seq<Row>, now: int, cfg: Config)
    requires GoodConfig(cfg) && RowIdsUnique(rows) && Current(rows, cfg).Ok? && |rows| <= |cfg.bundle|
    requires forall i :: 0 <= i < |rows| ==> rows[i].appliedAt <= now
    ensures var all := rows + NewRows(cfg.bundle[|rows|..], now, cfg.checksum);
      Current(all, cfg).Ok? && Current(all, cfg).value.pending == []
  {
    hide Current, CreateStatus, Sort, TimesAscend, ChecksumsMatch, IsPrefix, RowIdsUnique;
    var added := NewRows(cfg.bundle[|rows|..], now, cfg.checksum);
    var sorted := Sort(rows, RowOrder(cfg.compareIds));
    StatusShowsPrefix(rows, cfg);
    ReadAfterCommit(rows, now, cfg);
    SortMembers(rows, RowOrder(cfg.compareIds));
    forall i | 0 <= i < |sorted| ensures sorted[i].appliedAt <= now {
      assert sorted[i] in rows;
    }
    AppendedStatus(sorted, added, now, cfg);
    ReadableRows(rows + added, sorted + added, cfg);
  }

  /** Rows read without a blank checksum give the status of what was read. */
  lemma ReadableRows(rows: seq<Row>, ordered: seq<Row>, cfg: Config)
    requires ordered == Sort(rows, RowOrder(cfg.compareIds))
    requires forall i :: 0 <= i < |ordered| ==> !JsBlank(ordered[i].checksum)
    ensures Current(rows, cfg) == CreateStatus(MapRows(ordered), cfg.bundle, cfg.checksum)
  {
    hide CreateStatus, Sort;
  }

  lemma AppendedStatus(sorted: seq<Row>, added: seq<Row>, now: int, cfg: Config)
    requires UniqueIds(cfg.bundle) && |sorted| <= |cfg.bundle|
    requires added == NewRows(cfg.bundle[|sorted|..], now, cfg.checksum)
    requires IsPrefix(MapRows(sorted), cfg.bundle) && TimesAscend(MapRows(sorted))
    requires ChecksumsMatch(MapRows(sorted), cfg.bundle, cfg.checksum)
    requires forall i :: 0 <= i < |sorted| ==> sorted[i].appliedAt <= now
    ensures CreateStatus(MapRows(sorted + added), cfg.bundle, cfg.checksum).Ok?
    ensures CreateStatus(MapRows(sorted + added), cfg.bundle, cfg.checksum).value.pending == []
  {
    var applied, before := MapRows(sorted + added), MapRows(sorted);
    forall i | 0 <= i < |applied|
      ensures applied[i].id == cfg.bundle[i].id && ChecksumAccepted(applied[i], cfg.bundle[i], cfg.checksum)
      ensures i > 0 ==> applied[i - 1].appliedAt <= applied[i].appliedAt
    {
      if i < |sorted| {
        assert applied[i] == before[i];
        assert ChecksumAccepted(before[i], cfg.bundle[i], cfg.checksum);
        assert i > 0 ==> applied[i - 1] == before[i - 1];
      } else {
        assert (sorted + added)[i] == added[i - |sorted|];
      }
    }
    StatusIsPrefix(applied, cfg.bundle, cfg.checksum);
    assert cfg.bundle[|applied|..] == [];
  }

  // ---------------------------------------------------------------- every step keeps the invariant

  lemma StartInv(rows: seq<Row>, clock: int, cfg: Config)
    requires RowIdsUnique(rows) && forall i :: 0 <= i < |rows| ==> rows[i].appliedAt <= clock
    ensures Inv(Start(rows, clock), rows, cfg)
  {
  }

  lemma CommitKeepsInv(s: State, init: seq<Row>, r: RunnerId, answered: bool, cfg: Config)
    requires GoodConfig(cfg) && Inv(s, init, cfg) && Apply(s, Commit(r, answered), cfg).Some?
    ensures Inv(Apply(s, Commit(r, answered), cfg).value, init, cfg)
  {
    hide Current, GoodConfig, Sort, RowsGrow, TimesAscend, ChecksumsMatch, IsPrefix, RowIdsUnique, ReportsMatch;
    var s' := Apply(s, Commit(r, answered), cfg).value;
    CommitRows(s, s', init, r, answered, s.runners[r].pc, cfg);
    ReadAfterCommit(s.rows, s.runners[r].pc.startedAt, cfg);
    OpenStays(s, Commit(r, answered), cfg);
    CommitGrows(s, s', init, r, answered, cfg);
    CommitReports(s, r, answered, cfg);
  }

  /** A commit adds one row for each migration of the bundle that was not there. */
  lemma CommitRows(s: State, s': State, init: seq<Row>, r: RunnerId, answered: bool, pc: Pc, cfg: Config)
    requires pc.Applying? && r in s.runners && s.runners[r].pc == pc
    requires GoodConfig(cfg) && Inv(s, init, cfg) && Apply(s, Commit(r, answered), cfg) == Some(s')
    ensures |s.rows| <= |cfg.bundle| && RowIdsUnique(s.rows) && Current(s.rows, cfg).Ok?
    ensures pc.status.pending == cfg.bundle[|s.rows|..] && pc.startedAt <= s.clock
    ensures s'.rows == s.rows + NewRows(cfg.bundle[|s.rows|..], pc.startedAt, cfg.checksum)
    ensures s'.executed == s.executed + Ids(cfg.bundle[|s.rows|..])
  {
    hide Current, GoodConfig, Sort, RowsGrow, TimesAscend, ChecksumsMatch, IsPrefix, RowIdsUnique, ReportsMatch, NewRows;
    UniqueRows(s, init, cfg);
    StatusShowsPrefix(s.rows, cfg);
    assert pc.status.pending[..pc.done] == cfg.bundle[|s.rows|..];
  }

  lemma UniqueRows(s: State, init: seq<Row>, cfg: Config)
    requires RowsGrow(s, init, cfg)
    ensures RowIdsUnique(s.rows)
  {
  }

  lemma CommitGrows(s: State, s': State, init: seq<Row>, r: RunnerId, answered: bool, cfg: Config)
    requires RowsGrow(s, init, cfg) && |s.rows| <= |cfg.bundle|
    requires Apply(s, Commit(r, answered), cfg) == Some(s')
    requires s.runners[r].pc.status.pending == cfg.bundle[|s.rows|..]
    requires s.runners[r].pc.startedAt <= s.clock && OpenOk(s, cfg)
    requires RowIdsUnique(s'.rows)
    ensures RowsGrow(s', init, cfg)
  {
    hide RowsGrow, Current, Ensure, Backfill;
    var from, pc := |s.rows|, s.runners[r].pc;
    assert pc.status.pending[..pc.done] == cfg.bundle[from..];
    RowsContinue(s, s', init, pc.startedAt, Report(r, cfg.bundle[from..], answered), cfg);
  }

  /** Rows for the rest of the bundle continue the rows that are there. */
  lemma RowsContinue(s: State, s': State, init: seq<Row>, now: int, report: Report, cfg: Config)
    requires RowsGrow(s, init, cfg) && |s.rows| <= |cfg.bundle| && now <= s.clock <= s'.clock
    requires report.applied == cfg.bundle[|s.rows|..]
    requires s'.rows == s.rows + NewRows(report.applied, now, cfg.checksum)
    requires s'.executed == s.executed + Ids(report.applied) && s'.commits == s.commits + [report]
    requires RowIdsUnique(s'.rows)
    ensures RowsGrow(s', init, cfg)
  {
    hide RowIdsUnique, Flatten;
    var from := |s.rows|;
    IdsFrom(cfg.bundle, from);
    Rejoin(Ids(cfg.bundle), |init|, from);
    FlattenMore(s.commits, report);
  }

  lemma IdsFrom(ms: seq<Migration>, from: nat)
    requires from <= |ms|
    ensures Ids(ms[from..]) == Ids(ms)[from..]
  {
  }

  lemma Rejoin(ids: seq<Text>, from: nat, mid: nat)
    requires from <= mid <= |ids|
    ensures ids[from..mid] + ids[mid..] == ids[from..|ids|]
    ensures from == mid ==> [] + ids[mid..] == ids[from..|ids|]
  {
  }

  lemma FlattenMore(commits: seq<Report>, last: Report)
    ensures Flatten(commits + [last]) == Flatten(commits) + Ids(last.applied)
  {
    assert (commits + [last])[..|commits|] == commits;
  }

  lemma EnsureKeepsRows(s: State, s': State, init: seq<Row>, cfg: Config)
    requires RowsGrow(s, init, cfg) && s' == s.(rows := s'.rows, runners := s'.runners)
    requires |s'.rows| == |s.rows|
    requires forall i :: 0 <= i < |s.rows| ==>
      s'.rows[i].id == s.rows[i].id && s'.rows[i].appliedAt == s.rows[i].appliedAt
    ensures RowsGrow(s', init, cfg)
  {
  }

  lemma LockStays(s: State, e: Event, cfg: Config)
    requires LockHeld(s) && Apply(s, e, cfg).Some?
    ensures LockHeld(Apply(s, e, cfg).value)
  {
    hide Current, Ensure, Backfill;
  }

  lemma OpenStays(s: State, e: Event, cfg: Config)
    requires OpenOk(s, cfg) && LockHeld(s) && Apply(s, e, cfg).Some?
    ensures OpenOk(Apply(s, e, cfg).value, cfg)
  {
    hide Current, Ensure, Backfill, NewRows, Ids;
    var s' := Apply(s, e, cfg).value;
    if e.ApplyOne? {
      ApplyOneOpen(s, s', e.r, cfg);
    } else if e.Begin? {
      BeginOpen(s, s', e, cfg);
    } else if e.Join? || e.Acquire? || e.LockTimeout? {
      assert s'.open == s.open;
      assert forall q | q in s.runners :: s.runners[q].pc.Applying? ==> s'.runners[q].pc == s.runners[q].pc;
    } else {
      HolderOpen(s, s', e, cfg);
    }
  }

  lemma ApplyOneOpen(s: State, s': State, r: RunnerId, cfg: Config)
    requires OpenOk(s, cfg) && LockHeld(s) && Apply(s, ApplyOne(r), cfg) == Some(s')
    ensures OpenOk(s', cfg)
  {
    hide NewRows, Ids;
    var pc := s.runners[r].pc;
    OneMore(pc.status.pending, pc.done, pc.startedAt, cfg.checksum);
    assert s'.runners[r].pc.Applying?;
  }

  lemma BeginOpen(s: State, s': State, e: Event, cfg: Config)
    requires OpenOk(s, cfg) && LockHeld(s) && e.Begin? && Apply(s, e, cfg) == Some(s')
    ensures OpenOk(s', cfg)
  {
    hide Current, NewRows, Ids;
    var pc := s'.runners[e.r].pc;
    assert forall q | q in s.runners :: !s.runners[q].pc.Applying?;
    if pc.Applying? {
      NoneYet(pc.status.pending, pc.startedAt, cfg.checksum);
    }
  }

  /** The other steps of the lock's holder end with nobody applying and nothing open. */
  lemma HolderOpen(s: State, s': State, e: Event, cfg: Config)
    requires OpenOk(s, cfg) && LockHeld(s) && Apply(s, e, cfg) == Some(s')
    requires !e.Join? && !e.Acquire? && !e.LockTimeout? && !e.ApplyOne? && !e.Begin?
    ensures OpenOk(s', cfg)
  {
    hide Current, Ensure, Backfill, NewRows, Ids;
    assert forall q | q in s.runners && s.runners[q].pc.Applying? :: q == e.r;
    assert forall q | q in s'.runners :: !s'.runners[q].pc.Applying?;
    assert s'.open == NOTHING;
  }

  lemma NoneYet(ms: seq<Migration>, now: int, checksum: Checksum)
    ensures NewRows(ms[..0], now, checksum) == [] && Ids(ms[..0]) == []
  {
  }

  lemma OneMore(ms: seq<Migration>, n: nat, now: int, checksum: Checksum)
    requires n < |ms|
    ensures NewRows(ms[..n + 1], now, checksum)
         == NewRows(ms[..n], now, checksum) + [Row(ms[n].id, Some(checksum(ms[n].sql)), now)]
    ensures Ids(ms[..n + 1]) == Ids(ms[..n]) + [ms[n].id]
  {
  }

  lemma ReportsStay(s: State, e: Event, cfg: Config)
    requires ReportsMatch(s) && LockHeld(s) && Apply(s, e, cfg).Some? && !e.Commit?
    ensures ReportsMatch(Apply(s, e, cfg).value)
  {
    hide Current, Ensure, Backfill, ReportsMatch;
    var s' := Apply(s, e, cfg).value;
    if e.Join? {
      JoinKeepsReports(s, s', e.r);
    } else {
      MoveKeepsReports(s, s', e.r);
    }
  }

  lemma JoinKeepsReports(s: State, s': State, r: RunnerId)
    requires ReportsMatch(s) && r !in s.runners && r in s'.runners
    requires s'.commits == s.commits && s'.runners == s.runners[r := s'.runners[r]]
    requires OutcomeOf(s'.runners[r].pc).None?
    ensures ReportsMatch(s')
  {
    hide OutcomeOf;
  }

  /** A step that keeps its runner's report, or makes it report nothing applied, changes no report. */
  lemma MoveKeepsReports(s: State, s': State, r: RunnerId)
    requires ReportsMatch(s) && r in s.runners && r in s'.runners
    requires s'.commits == s.commits && s'.runners == s.runners[r := s'.runners[r]]
    requires var a, b := OutcomeOf(s.runners[r].pc), OutcomeOf(s'.runners[r].pc);
      || a == b
      || (a.None? && b.Some? && (b.value.Succeeded? ==> b.value.applied == []))
    ensures ReportsMatch(s')
  {
    hide OutcomeOf;
  }

  lemma CommitReports(s: State, r: RunnerId, answered: bool, cfg: Config)
    requires ReportsMatch(s) && StatusCurrent(s, cfg) && Apply(s, Commit(r, answered), cfg).Some?
    ensures ReportsMatch(Apply(s, Commit(r, answered), cfg).value)
  {
    hide Current, RowsGrow;
    var s' := Apply(s, Commit(r, answered), cfg).value;
    forall k | 0 <= k < |s.commits| ensures s.commits[k].r != r {
      assert OutcomeOf(s.runners[s.commits[k].r].pc).Some?;
    }
    forall q | q in s'.runners && OutcomeOf(s'.runners[q].pc).Some?
      ensures var o := OutcomeOf(s'.runners[q].pc).value;
        o.Succeeded? && o.applied != [] ==> Report(q, o.applied, true) in s'.commits
    {
      if q == r {
        assert s'.commits[|s.commits|] == Report(r, s.runners[r].pc.status.pending, answered);
      }
    }
  }

  lemma BeginKeepsInv(s: State, e: Event, init: seq<Row>, cfg: Config)
    requires Inv(s, init, cfg) && e.Begin? && Apply(s, e, cfg).Some?
    ensures Inv(Apply(s, e, cfg).value, init, cfg)
  {
    hide Current, ReportsMatch, LockHeld, OpenOk;
    LockStays(s, e, cfg);
    OpenStays(s, e, cfg);
    ReportsStay(s, e, cfg);
    hide RowIdsUnique, Flatten;
  }

  lemma ApplyKeepsInv(s: State, e: Event, init: seq<Row>, cfg: Config)
    requires GoodConfig(cfg) && Inv(s, init, cfg) && Apply(s, e, cfg).Some?
    ensures Inv(Apply(s, e, cfg).value, init, cfg)
  {
    hide GoodConfig, Current, RowIdsUnique, Flatten, ReportsMatch, OpenOk;
    var s' := Apply(s, e, cfg).value;
    LockStays(s, e, cfg);
    OpenStays(s, e, cfg);
    if e.Commit? {
      CommitKeepsInv(s, init, e.r, e.answered, cfg);
    } else {
      ReportsStay(s, e, cfg);
      if e.Begin? {
        BeginKeepsInv(s, e, init, cfg);
      } else if e.EnsureTable? || e.EnsureFails? {
        EnsureKeepsRows(s, s', init, cfg);
      }
    }
  }

  lemma {:induction false} RunKeepsInv(s: State, events: seq<Event>, init: seq<Row>, cfg: Config)
    requires GoodConfig(cfg) && Inv(s, init, cfg) && Run(s, events, cfg).Some?
    ensures Inv(Run(s, events, cfg).value, init, cfg)
    decreases |events|
  {
    hide GoodConfig, Inv, Apply;
    if events != [] {
      ApplyKeepsInv(s, events[0], init, cfg);
      RunKeepsInv(Apply(s, events[0], cfg).value, events[1..], init, cfg);
    }
  }

  // ---------------------------------------------------------------- theorems

  ghost predicate NoRepeats(ids: seq<Text>) {
    forall i, j :: 0 <= i < j < |ids| ==> ids[i] != ids[j]
  }

  /**
   Exactly once, in every schedule: the SQL committed is the next stretch of the bundle in bundle
   order with no migration twice, none of it was applied before, the table gained exactly one row
   for each, and that list is cut in pieces by the runners: each piece is what one runner reports as
   applied, or belongs to a runner that failed because the answer to its `COMMIT` was lost.
   */
  lemma ExactlyOnce(rows: seq<Row>, clock: int, events: seq<Event>, cfg: Config)
    requires GoodConfig(cfg) && RowIdsUnique(rows)
    requires forall i :: 0 <= i < |rows| ==> rows[i].appliedAt <= clock
    requires Run(Start(rows, clock), events, cfg).Some?
    ensures var s := Run(Start(rows, clock), events, cfg).value;
      && NoRepeats(s.executed)
      && (s.executed != [] ==>
            |rows| + |s.executed| <= |cfg.bundle|
            && s.executed == Ids(cfg.bundle)[|rows|..|rows| + |s.executed|])
      && (forall i, j :: 0 <= i < |rows| && 0 <= j < |s.executed| ==> rows[i].id != s.executed[j])
      && |s.rows| == |rows| + |s.executed|
      && s.executed == Flatten(s.commits) && ReportsMatch(s)
  {
    hide ReportsMatch, GoodConfig, Current;
    StartInv(rows, clock, cfg);
    RunKeepsInv(Start(rows, clock), events, rows, cfg);
    var s := Run(Start(rows, clock), events, cfg).value;
    forall i, j | 0 <= i < j < |s.executed| ensures s.executed[i] != s.executed[j] {
      assert s.rows[|rows| + i].id != s.rows[|rows| + j].id;
    }
    forall i, j | 0 <= i < |rows| && 0 <= j < |s.executed| ensures rows[i].id != s.executed[j] {
      assert s.rows[i].id != s.rows[|rows| + j].id;
    }
  }

  /** A successful runner's two lists are the bundle: what was there, then what it applied. */
  ghost predicate CoversBundle(pc: Pc, cfg: Config) {
    OutcomeOf(pc).Some? && OutcomeOf(pc).value.Succeeded? ==>
      OutcomeOf(pc).value.skipped + OutcomeOf(pc).value.applied == cfg.bundle
  }

  ghost predicate AllCover(s: State, cfg: Config) {
    forall r | r in s.runners :: CoversBundle(s.runners[r].pc, cfg)
  }

  lemma StatusCovers(rows: seq<Row>, cfg: Config)
    requires GoodConfig(cfg) && Current(rows, cfg).Ok?
    ensures Current(rows, cfg).value.skipped + Current(rows, cfg).value.pending == cfg.bundle
  {
    hide GoodConfig, Current, Sort, IsPrefix, TimesAscend, ChecksumsMatch;
    StatusShowsPrefix(rows, cfg);
  }

  lemma ApplyKeepsCover(s: State, e: Event, init: seq<Row>, cfg: Config)
    requires GoodConfig(cfg) && Inv(s, init, cfg) && AllCover(s, cfg) && Apply(s, e, cfg).Some?
    ensures AllCover(Apply(s, e, cfg).value, cfg)
  {
    hide GoodConfig, Current, Ensure, Backfill, RowsGrow, ReportsMatch, LockHeld;
    if Current(s.rows, cfg).Ok? {
      StatusCovers(s.rows, cfg);
    }
  }

  lemma {:induction false} RunKeepsCover(s: State, events: seq<Event>, init: seq<Row>, cfg: Config)
    requires GoodConfig(cfg) && Inv(s, init, cfg) && AllCover(s, cfg) && Run(s, events, cfg).Some?
    ensures AllCover(Run(s, events, cfg).value, cfg)
    decreases |events|
  {
    hide GoodConfig, Inv, AllCover, Apply;
    if events != [] {
      ApplyKeepsInv(s, events[0], init, cfg);
      ApplyKeepsCover(s, events[0], init, cfg);
      RunKeepsCover(Apply(s, events[0], cfg).value, events[1..], init, cfg);
    }
  }

  /** In every schedule each successful runner accounts for the whole bundle, in bundle order. */
  lemma ReportsCoverBundle(rows: seq<Row>, clock: int, events: seq<Event>, cfg: Config, r: RunnerId)
    requires GoodConfig(cfg) && RowIdsUnique(rows)
    requires forall i :: 0 <= i < |rows| ==> rows[i].appliedAt <= clock
    requires Run(Start(rows, clock), events, cfg).Some?
    requires r in Run(Start(rows, clock), events, cfg).value.runners
    ensures CoversBundle(Run(Start(rows, clock), events, cfg).value.runners[r].pc, cfg)
  {
    hide GoodConfig, Inv, Run;
    StartInv(rows, clock, cfg);
    RunKeepsCover(Start(rows, clock), events, rows, cfg);
  }

  /** The runner's transaction was committed and the answer to it lost. */
  ghost predicate AnswerLost(s: State, r: RunnerId) {
    exists report | report in s.commits :: report.r == r && !report.answered
  }

  /** The table has gained the rest of the bundle and nothing is pending. */
  ghost predicate WholeBundle(s0: State, s: State, cfg: Config) {
    && |s0.rows| <= |cfg.bundle| == |s.rows| && s.rows[..|s0.rows|] == s0.rows
    && s.executed == s0.executed + Ids(cfg.bundle[|s0.rows|..])
    && Current(s.rows, cfg).Ok? && Current(s.rows, cfg).value.pending == []
  }

  /** How a failed runner has left the table, against the state after its ensure step. */
  ghost predicate LeftBehind(s0: State, s: State, r: RunnerId, cfg: Config) {
    if AnswerLost(s, r) then WholeBundle(s0, s, cfg) else s.rows == s0.rows && s.executed == s0.executed
  }

  /** Since the ensure step: nothing committed while the runner works, and as left behind once it fails. */
  ghost predicate NothingSince(s0: State, s: State, r: RunnerId, cfg: Config) {
    && r in s.runners && !s.runners[r].pc.Idle? && !s.runners[r].pc.Locked?
    && (Inside(s.runners[r].pc) && OutcomeOf(s.runners[r].pc) in {None, Some(Failed)} ==> LeftBehind(s0, s, r, cfg))
  }

  /** A runner that has not stopped has committed nothing. */
  lemma WorkingNotLost(s: State, r: RunnerId)
    requires ReportsMatch(s) && r in s.runners && OutcomeOf(s.runners[r].pc).None?
    ensures !AnswerLost(s, r)
  {
  }

  lemma CommitLeaves(s0: State, s: State, s': State, init: seq<Row>, r: RunnerId, answered: bool, cfg: Config)
    requires GoodConfig(cfg) && Inv(s, init, cfg) && Apply(s, Commit(r, answered), cfg) == Some(s')
    requires s.rows == s0.rows && s.executed == s0.executed
    ensures WholeBundle(s0, s', cfg) && (AnswerLost(s', r) || answered)
  {
    hide GoodConfig, Inv, Current, RowsGrow, StatusCurrent, ReportsMatch, RowIdsUnique, AnswerLost;
    CommitSettles(s, init, r, answered, cfg);
    CommitRows(s, s', init, r, answered, s.runners[r].pc, cfg);
    LostHere(s', Report(r, s.runners[r].pc.status.pending, answered));
  }

  lemma LostHere(s: State, report: Report)
    requires report in s.commits
    ensures report.answered || AnswerLost(s, report.r)
  {
  }

  lemma StepKeepsNothing(s0: State, s: State, e: Event, s': State, r: RunnerId, init: seq<Row>, cfg: Config)
    requires GoodConfig(cfg) && Inv(s, init, cfg) && NothingSince(s0, s, r, cfg) && Apply(s, e, cfg) == Some(s')
    ensures NothingSince(s0, s', r, cfg)
    ensures Inside(s.runners[r].pc) && OutcomeOf(s'.runners[r].pc) == Some(Failed) ==> LeftBehind(s0, s', r, cfg)
  {
    hide GoodConfig, Current, Ensure, Backfill, RowsGrow, StatusCurrent, ReportsMatch, OpenOk, WholeBundle, AnswerLost;
    if Inside(s.runners[r].pc) {
      if OutcomeOf(s.runners[r].pc).None? {
        WorkingNotLost(s, r);
      }
      if e.Commit? {
        assert e.r == r;
        CommitLeaves(s0, s, s', init, r, e.answered, cfg);
      } else {
        SameCommits(s, s', r);
        if OutcomeOf(s.runners[r].pc) in {None, Some(Failed)} {
          SameLeft(s0, s, s', r, cfg);
        }
      }
    }
  }

  lemma SameCommits(s: State, s': State, r: RunnerId)
    requires s'.commits == s.commits
    ensures AnswerLost(s', r) == AnswerLost(s, r)
  {
  }

  lemma SameLeft(s0: State, s: State, s': State, r: RunnerId, cfg: Config)
    requires LeftBehind(s0, s, r, cfg)
    requires s'.commits == s.commits && s'.rows == s.rows && s'.executed == s.executed
    ensures LeftBehind(s0, s', r, cfg)
  {
    hide Current;
  }

  lemma {:induction false} RunKeepsNothing(s0: State, s: State, events: seq<Event>, r: RunnerId, init: seq<Row>, cfg: Config)
    requires GoodConfig(cfg) && Inv(s, init, cfg) && NothingSince(s0, s, r, cfg) && Run(s, events, cfg).Some?
    ensures NothingSince(s0, Run(s, events, cfg).value, r, cfg) && Inv(Run(s, events, cfg).value, init, cfg)
    decreases |events|
  {
    hide GoodConfig, Apply, Inv, NothingSince;
    if events != [] {
      var next := Apply(s, events[0], cfg).value;
      StepKeepsNothing(s0, s, events[0], next, r, init, cfg);
      ApplyKeepsInv(s, events[0], init, cfg);
      RunKeepsNothing(s0, next, events[1..], r, init, cfg);
    }
  }

  /**
   A runner that fails after its ensure step leaves the table and the schema exactly as they were
   then, however many migrations it had run and whatever the other runners did meanwhile; unless
   the answer to its `COMMIT` was lost, and then the whole bundle is there and nothing is pending.
   */
  lemma FailureLeavesRows(rows: seq<Row>, clock: int, before: seq<Event>, s0: State, during: seq<Event>,
                          s: State, e: Event, s': State, r: RunnerId, cfg: Config)
    requires GoodConfig(cfg) && RowIdsUnique(rows)
    requires forall i :: 0 <= i < |rows| ==> rows[i].appliedAt <= clock
    requires Run(Start(rows, clock), before, cfg) == Some(s0) && r in s0.runners && s0.runners[r].pc.Ensured?
    requires Run(s0, during, cfg) == Some(s) && r in s.runners && Inside(s.runners[r].pc)
    requires Apply(s, e, cfg) == Some(s') && r in s'.runners
    requires OutcomeOf(s'.runners[r].pc) == Some(Failed)
    ensures s'.open == NOTHING
    ensures if AnswerLost(s', r) then WholeBundle(s0, s', cfg) else s'.rows == s0.rows && s'.executed == s0.executed
  {
    hide GoodConfig, Run, Apply, RowsGrow, StatusCurrent, ReportsMatch, OpenOk, LockHeld, RowIdsUnique, WholeBundle, AnswerLost;
    StartInv(rows, clock, cfg);
    RunKeepsInv(Start(rows, clock), before, rows, cfg);
    WorkingNotLost(s0, r);
    RunKeepsNothing(s0, s0, during, r, rows, cfg);
    StepKeepsNothing(s0, s, e, s', r, rows, cfg);
    ApplyKeepsInv(s, e, rows, cfg);
    NobodyApplies(s', s, e, r, cfg);
  }

  lemma NobodyApplies(s': State, s: State, e: Event, r: RunnerId, cfg: Config)
    requires LockHeld(s) && OpenOk(s', cfg) && Apply(s, e, cfg) == Some(s')
    requires r in s.runners && Inside(s.runners[r].pc) && OutcomeOf(s'.runners[r].pc) == Some(Failed)
    ensures s'.open == NOTHING
  {
    hide Current, Ensure, Backfill;
    forall q | q in s'.runners ensures !s'.runners[q].pc.Applying? {
    }
  }

  /** Repairing legacy checksums never touches ids, times, or a checksum that is not blank. */
  lemma EnsureOnlyFillsChecksums(s: State, e: Event, cfg: Config, i: nat)
    requires (e.EnsureTable? || e.EnsureFails?) && Apply(s, e, cfg).Some? && i < |s.rows|
    ensures var s' := Apply(s, e, cfg).value;
      && |s'.rows| == |s.rows| && s'.executed == s.executed
      && s'.rows[i].id == s.rows[i].id && s'.rows[i].appliedAt == s.rows[i].appliedAt
      && (!SqlBlank(s.rows[i].checksum) ==> s'.rows[i] == s.rows[i])
      && (!s.runners[e.r].allowBackfill ==> s'.rows == s.rows)
  {
  }

  /** Nothing is pending and no row is repairable: the table is settled. */
  ghost predicate Settled(s: State, cfg: Config) {
    && Current(s.rows, cfg).Ok? && Current(s.rows, cfg).value.pending == []
    && (forall i :: 0 <= i < |s.rows| ==> !SqlBlank(s.rows[i].checksum))
    && (forall r :: r in s.runners ==> !s.runners[r].pc.Applying?)
  }

  /** A commit settles the table. */
  lemma CommitSettles(s: State, init: seq<Row>, r: RunnerId, answered: bool, cfg: Config)
    requires GoodConfig(cfg) && Inv(s, init, cfg) && Apply(s, Commit(r, answered), cfg).Some?
    ensures Settled(Apply(s, Commit(r, answered), cfg).value, cfg)
  {
    hide Current, GoodConfig, Sort, RowsGrow, TimesAscend, ChecksumsMatch, IsPrefix, RowIdsUnique;
    var now := s.runners[r].pc.startedAt;
    CommitKeepsInv(s, init, r, answered, cfg);
    CommitRows(s, Apply(s, Commit(r, answered), cfg).value, init, r, answered, s.runners[r].pc, cfg);
    CommitCompletes(s.rows, now, cfg);
    NoBlankChecksums(s.rows, now, cfg);
  }

  lemma NoBlankChecksums(rows: seq<Row>, now: int, cfg: Config)
    requires GoodConfig(cfg) && Current(rows, cfg).Ok? && |rows| <= |cfg.bundle|
    ensures var all := rows + NewRows(cfg.bundle[|rows|..], now, cfg.checksum);
      forall i :: 0 <= i < |all| ==> !SqlBlank(all[i].checksum)
  {
    hide Current, Sort;
    StatusShowsPrefix(rows, cfg);
    SortMembers(rows, RowOrder(cfg.compareIds));
    var sorted := Sort(rows, RowOrder(cfg.compareIds));
    var all := rows + NewRows(cfg.bundle[|rows|..], now, cfg.checksum);
    forall i | 0 <= i < |all| ensures !SqlBlank(all[i].checksum) {
      BlankChecksums(all[i].checksum);
      if i < |rows| {
        assert rows[i] in sorted;
        var k :| 0 <= k < |sorted| && sorted[k] == rows[i];
      }
    }
  }

  lemma {:induction false} BackfillNothing(rows: seq<Row>, ms: seq<Migration>, n: nat, checksum: Checksum)
    requires n <= |ms| && forall i :: 0 <= i < |rows| ==> !SqlBlank(rows[i].checksum)
    ensures Backfill(rows, ms, n, checksum) == rows
  {
  }

  /** On a settled table every step of every runner changes nothing and applies nothing. */
  lemma {:induction false} SettledStays(s: State, events: seq<Event>, cfg: Config)
    requires Settled(s, cfg) && Run(s, events, cfg).Some?
    ensures var s' := Run(s, events, cfg).value;
      Settled(s', cfg) && s'.rows == s.rows && s'.executed == s.executed && s'.commits == s.commits
    decreases |events|
  {
    if events != [] {
      SettledStep(s, events[0], cfg);
      SettledStays(Apply(s, events[0], cfg).value, events[1..], cfg);
    }
  }

  lemma SettledStep(s: State, e: Event, cfg: Config)
    requires Settled(s, cfg) && Apply(s, e, cfg).Some?
    ensures var s' := Apply(s, e, cfg).value;
      Settled(s', cfg) && s'.rows == s.rows && s'.executed == s.executed && s'.commits == s.commits
  {
    hide Current;
    if e.EnsureTable? {
      BackfillNothing(s.rows, cfg.bundle, |cfg.bundle|, cfg.checksum);
    }
    if e.EnsureFails? {
      BackfillNothing(s.rows, cfg.bundle, e.repaired, cfg.checksum);
    }
  }

  /** A following `migrate` on a settled table succeeds, applies nothing and skips the whole bundle. */
  lemma FollowingRunAppliesNothing(s: State, r: RunnerId, allowBackfill: bool, cfg: Config)
    requires GoodConfig(cfg) && Settled(s, cfg) && s.lock.None? && r !in s.runners
    ensures Run(s, [Join(r, allowBackfill), Acquire(r), EnsureTable(r), Check(r), Unlock(r)], cfg)
         == Some(With(s, r, None, allowBackfill, Done(Succeeded([], cfg.bundle))))
  {
    hide GoodConfig, Apply, Run, Current, Ensure, SqlBlank, Sort, With;
    StatusShowsPrefix(s.rows, cfg);
    assert cfg.bundle[..|s.rows|] == cfg.bundle;
    EnsureSettled(s.rows, allowBackfill, cfg);
    SoloSteps(s, r, allowBackfill, cfg);
    RunFive(s, Join(r, allowBackfill), With(s, r, None, allowBackfill, Idle),
            Acquire(r), With(s, r, Some(r), allowBackfill, Locked),
            EnsureTable(r), With(s, r, Some(r), allowBackfill, Ensured),
            Check(r), With(s, r, Some(r), allowBackfill, Leaving(Succeeded([], cfg.bundle))),
            Unlock(r), With(s, r, None, allowBackfill, Done(Succeeded([], cfg.bundle))), cfg);
  }

  /** The same database and lock holder, with one runner at a given point. */
  function With(s: State, r: RunnerId, lock: Option<RunnerId>, allowBackfill: bool, pc: Pc): State {
    s.(lock := lock, runners := s.runners[r := Runner(allowBackfill, pc)])
  }

  /** The steps of a runner that finds everything applied. */
  lemma SoloSteps(s: State, r: RunnerId, allow: bool, cfg: Config)
    requires s.lock.None? && r !in s.runners
    requires Ensure(s.rows, cfg.bundle, allow, cfg.checksum) == Ok(s.rows)
    requires Current(s.rows, cfg).Ok? && Current(s.rows, cfg).value.pending == []
    requires Current(s.rows, cfg).value.skipped == cfg.bundle
    ensures Apply(s, Join(r, allow), cfg) == Some(With(s, r, None, allow, Idle))
    ensures Apply(With(s, r, None, allow, Idle), Acquire(r), cfg) == Some(With(s, r, Some(r), allow, Locked))
    ensures Apply(With(s, r, Some(r), allow, Locked), EnsureTable(r), cfg)
         == Some(With(s, r, Some(r), allow, Ensured))
    ensures Apply(With(s, r, Some(r), allow, Ensured), Check(r), cfg)
         == Some(With(s, r, Some(r), allow, Leaving(Succeeded([], cfg.bundle))))
    ensures Apply(With(s, r, Some(r), allow, Leaving(Succeeded([], cfg.bundle))), Unlock(r), cfg)
         == Some(With(s, r, None, allow, Done(Succeeded([], cfg.bundle))))
  {
    hide Current, Ensure;
    forall a: Pc, b: Pc
      ensures s.runners[r := Runner(allow, a)][r := Runner(allow, b)] == s.runners[r := Runner(allow, b)]
    {
    }
  }

  lemma EnsureSettled(rows: seq<Row>, allowBackfill: bool, cfg: Config)
    requires forall i :: 0 <= i < |rows| ==> !SqlBlank(rows[i].checksum)
    ensures Ensure(rows, cfg.bundle, allowBackfill, cfg.checksum) == Ok(rows)
  {
    BackfillNothing(rows, cfg.bundle, |cfg.bundle|, cfg.checksum);
  }

  lemma RunFive(s: State, e1: Event, s1: State, e2: Event, s2: State, e3: Event, s3: State,
                e4: Event, s4: State, e5: Event, s5: State, cfg: Config)
    requires Apply(s, e1, cfg) == Some(s1) && Apply(s1, e2, cfg) == Some(s2)
    requires Apply(s2, e3, cfg) == Some(s3) && Apply(s3, e4, cfg) == Some(s4)
    requires Apply(s4, e5, cfg) == Some(s5)
    ensures Run(s, [e1, e2, e3, e4, e5], cfg) == Some(s5)
  {
    hide Apply;
    assert Run(s5, [], cfg) == Some(s5);
    assert [e5][1..] == [] && Run(s4, [e5], cfg) == Some(s5);
    assert [e4, e5][1..] == [e5] && Run(s3, [e4, e5], cfg) == Some(s5);
    assert [e3, e4, e5][1..] == [e4, e5] && Run(s2, [e3, e4, e5], cfg) == Some(s5);
    assert [e2, e3, e4, e5][1..] == [e3, e4, e5] && Run(s1, [e2, e3, e4, e5], cfg) == Some(s5);
    assert [e1, e2, e3, e4, e5][1..] == [e2, e3, e4, e5];
  }
}
