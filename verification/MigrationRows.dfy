/** Which rows the runners leave in the migration table, over every schedule. */
module MigrationRows {
  import opened Prelude
  import opened JsonText
  import opened MigrationStatus
  import opened MigrationProtocol

  // ---------------------------------------------------------------- what a commit adds

  /** Since the runner began, nothing was committed and it still applies what it then read. */
  ghost predicate SinceBegin(s: State, s1: State, r: RunnerId) {
    && r in s.runners && r in s1.runners
    && (s.runners[r].pc.Applying? ==>
          && s1.runners[r].pc.Applying?
          && s.runners[r].pc.status == s1.runners[r].pc.status
          && s.runners[r].pc.startedAt == s1.runners[r].pc.startedAt
          && s.rows == s1.rows && s.executed == s1.executed)
    && (s.runners[r].pc.Applying? || OutcomeOf(s.runners[r].pc).Some?)
  }

  lemma StepSinceBegin(s: State, e: Event, s': State, s1: State, r: RunnerId, cfg: Config)
    requires LockHeld(s) && SinceBegin(s, s1, r) && Apply(s, e, cfg) == Some(s')
    ensures SinceBegin(s', s1, r)
  {
    hide Current, Ensure, Backfill;
    if s.runners[r].pc.Applying? {
      assert s.lock == Some(r);
    }
  }

  lemma {:induction false} RunSinceBegin(s: State, events: seq<Event>, s1: State, r: RunnerId, init: seq<Row>, cfg: Config)
    requires GoodConfig(cfg) && Inv(s, init, cfg) && SinceBegin(s, s1, r) && Run(s, events, cfg).Some?
    ensures SinceBegin(Run(s, events, cfg).value, s1, r)
    decreases |events|
  {
    hide GoodConfig, RowsGrow, StatusCurrent, ReportsMatch, OpenOk, LockHeld, SinceBegin, Apply;
    if events != [] {
      var next := Apply(s, events[0], cfg).value;
      ApplyKeepsInv(s, events[0], init, cfg);
      StepSinceBegin(s, events[0], next, s1, r, cfg);
      RunSinceBegin(next, events[1..], s1, r, init, cfg);
    }
  }

  lemma BeginReads(s: State, r: RunnerId, now: int, s1: State, cfg: Config)
    requires GoodConfig(cfg) && Apply(s, Begin(r, now), cfg) == Some(s1)
    ensures s1.rows == s.rows && s1.executed == s.executed && SinceBegin(s1, s1, r)
    ensures s1.runners[r].pc.Applying? ==>
      && s1.runners[r].pc.startedAt == now && |s.rows| <= |cfg.bundle|
      && s1.runners[r].pc.status.pending == cfg.bundle[|s.rows|..]
  {
    hide Current, GoodConfig, Ensure, Backfill;
    if Current(s.rows, cfg).Ok? {
      ReadShows(s.rows, cfg);
    }
  }

  lemma ReadShows(rows: seq<Row>, cfg: Config)
    requires GoodConfig(cfg) && Current(rows, cfg).Ok?
    ensures |rows| <= |cfg.bundle| && Current(rows, cfg).value.pending == cfg.bundle[|rows|..]
  {
    hide Current, GoodConfig, IsPrefix, TimesAscend, ChecksumsMatch, JsBlank;
    StatusShowsPrefix(rows, cfg);
  }

  lemma CommitAdds(s: State, r: RunnerId, answered: bool, s': State, cfg: Config)
    requires OpenOk(s, cfg) && Apply(s, Commit(r, answered), cfg) == Some(s')
    ensures s.runners[r].pc.Applying?
    ensures var pc := s.runners[r].pc;
      && s'.rows == s.rows + NewRows(pc.status.pending, pc.startedAt, cfg.checksum)
      && s'.executed == s.executed + Ids(pc.status.pending)
  {
    var pc := s.runners[r].pc;
    assert pc.status.pending[..pc.done] == pc.status.pending;
  }

  /**
   A commit adds to the rows its transaction found when it began, and to no others: one row for each
   migration that was missing, in bundle order, with the checksum of its SQL and the time the
   transaction began, whatever other runners do meanwhile and whether or not the answer arrives.
   */
  lemma CommitWrites(rows: seq<Row>, clock: int, before: seq<Event>, s0: State, r: RunnerId, now: int, s1: State,
                     during: seq<Event>, s2: State, answered: bool, s3: State, cfg: Config)
    requires GoodConfig(cfg) && RowIdsUnique(rows)
    requires forall i :: 0 <= i < |rows| ==> rows[i].appliedAt <= clock
    requires Run(Start(rows, clock), before, cfg) == Some(s0) && Apply(s0, Begin(r, now), cfg) == Some(s1)
    requires Run(s1, during, cfg) == Some(s2) && Apply(s2, Commit(r, answered), cfg) == Some(s3)
    ensures var n := |s0.rows|;
      && |s3.rows| == |cfg.bundle| && n < |cfg.bundle| && s3.rows[..n] == s0.rows
      && (forall i | n <= i < |cfg.bundle| ::
            s3.rows[i] == Row(cfg.bundle[i].id, Some(cfg.checksum(cfg.bundle[i].sql)), now))
      && s3.executed == s0.executed + Ids(cfg.bundle)[n..]
  {
    hide GoodConfig, Run, RowsGrow, ReportsMatch, LockHeld, RowIdsUnique, Apply, Current;
    StartInv(rows, clock, cfg);
    RunKeepsInv(Start(rows, clock), before, rows, cfg);
    ApplyKeepsInv(s0, Begin(r, now), rows, cfg);
    BeginReads(s0, r, now, s1, cfg);
    RunSinceBegin(s1, during, s1, r, rows, cfg);
    RunKeepsInv(s1, during, rows, cfg);
    CommitAdds(s2, r, answered, s3, cfg);
  }

  // ---------------------------------------------------------------- what becomes of the rows that were there

  /** The row is as it was, or, if that was asked for, a blank checksum became the bundled one. */
  ghost predicate KeptOrRepaired(was: Row, row: Row, optIn: bool, cfg: Config) {
    || row == was
    || (optIn && SqlBlank(was.checksum)
        && exists m | m in cfg.bundle :: row == Row(was.id, Some(cfg.checksum(m.sql)), was.appliedAt) && m.id == was.id)
  }

  ghost predicate RowsKept(before: seq<Row>, after: seq<Row>, optIn: bool, cfg: Config) {
    && |before| <= |after|
    && forall i :: 0 <= i < |before| ==> KeptOrRepaired(before[i], after[i], optIn, cfg)
  }

  lemma RowsKeptTrans(a: seq<Row>, b: seq<Row>, c: seq<Row>, optIn: bool, cfg: Config)
    requires forall sql: Text :: !SqlBlank(Some(cfg.checksum(sql)))
    requires RowsKept(a, b, optIn, cfg) && RowsKept(b, c, optIn, cfg)
    ensures RowsKept(a, c, optIn, cfg)
  {
    hide SqlBlank;
  }

  lemma BackfillKeeps(rows: seq<Row>, n: nat, cfg: Config)
    requires GoodConfig(cfg) && n <= |cfg.bundle|
    ensures RowsKept(rows, Backfill(rows, cfg.bundle, n, cfg.checksum), true, cfg)
  {
    hide SqlBlank, JsBlank, Backfill;
    NeverBlank(cfg);
    forall i | 0 <= i < |rows|
      ensures KeptOrRepaired(rows[i], Backfill(rows, cfg.bundle, n, cfg.checksum)[i], true, cfg)
    {
      BackfillExact(rows, cfg.bundle, n, cfg.checksum, i);
      if SqlBlank(rows[i].checksum) && exists k | 0 <= k < n :: cfg.bundle[k].id == rows[i].id {
        var k :| 0 <= k < n && cfg.bundle[k].id == rows[i].id;
        assert cfg.bundle[k] in cfg.bundle;
      }
    }
  }

  lemma NeverBlank(cfg: Config)
    requires GoodConfig(cfg)
    ensures forall sql: Text :: !SqlBlank(Some(cfg.checksum(sql)))
  {
    hide SqlBlank, JsBlank;
    forall sql: Text ensures !SqlBlank(Some(cfg.checksum(sql))) {
      BlankChecksums(Some(cfg.checksum(sql)));
    }
  }

  /** Repair is allowed only to runners that joined with the opt-in. */
  ghost predicate OptInOnly(s: State, optIn: bool) {
    forall r :: r in s.runners && s.runners[r].allowBackfill ==> optIn
  }

  lemma StepKeepsRows(s: State, e: Event, s': State, optIn: bool, cfg: Config)
    requires GoodConfig(cfg) && OptInOnly(s, optIn) && (e.Join? && e.allowBackfill ==> optIn)
    requires Apply(s, e, cfg) == Some(s')
    ensures RowsKept(s.rows, s'.rows, optIn, cfg) && OptInOnly(s', optIn)
  {
    hide GoodConfig, Current, Backfill, SqlBlank, KeptOrRepaired;
    forall i | 0 <= i < |s.rows| ensures KeptOrRepaired(s.rows[i], s.rows[i], optIn, cfg) {
      SameIsKept(s.rows[i], optIn, cfg);
    }
    if e.EnsureTable? {
      BackfillKeeps(s.rows, |cfg.bundle|, cfg);
    } else if e.EnsureFails? && e.repaired > 0 {
      BackfillKeeps(s.rows, e.repaired, cfg);
    } else if e.EnsureFails? {
      NothingFilled(s.rows, cfg);
    }
  }

  lemma SameIsKept(row: Row, optIn: bool, cfg: Config)
    ensures KeptOrRepaired(row, row, optIn, cfg)
  {
  }

  lemma NothingFilled(rows: seq<Row>, cfg: Config)
    ensures Backfill(rows, cfg.bundle, 0, cfg.checksum) == rows
  {
  }

  lemma {:induction false} RunKeepsRows(s: State, events: seq<Event>, optIn: bool, cfg: Config)
    requires GoodConfig(cfg) && OptInOnly(s, optIn) && Run(s, events, cfg).Some?
    requires forall e | e in events :: e.Join? && e.allowBackfill ==> optIn
    ensures RowsKept(s.rows, Run(s, events, cfg).value.rows, optIn, cfg)
    decreases |events|
  {
    hide GoodConfig, Apply, OptInOnly, RowsKept;
    if events == [] {
      KeptAll(s.rows, optIn, cfg);
    } else {
      assert events[0] in events;
      var next := Apply(s, events[0], cfg).value;
      StepKeepsRows(s, events[0], next, optIn, cfg);
      RunKeepsRows(next, events[1..], optIn, cfg);
      NeverBlank(cfg);
      RowsKeptTrans(s.rows, next.rows, Run(s, events, cfg).value.rows, optIn, cfg);
    }
  }

  lemma KeptAll(rows: seq<Row>, optIn: bool, cfg: Config)
    ensures RowsKept(rows, rows, optIn, cfg)
  {
  }

  /**
   Whatever any number of runners do, a row that was in the table stays in its place with its id and
   time. Its checksum stays too, unless it was blank and some runner was started with the opt-in;
   then it may have become that of the bundled migration with its id, and nothing else.
   */
  lemma OldRowsStay(rows: seq<Row>, clock: int, events: seq<Event>, s: State, cfg: Config)
    requires GoodConfig(cfg) && Run(Start(rows, clock), events, cfg) == Some(s)
    ensures |rows| <= |s.rows|
    ensures forall i | 0 <= i < |rows| ::
      || s.rows[i] == rows[i]
      || (&& SqlBlank(rows[i].checksum) && (exists e | e in events :: e.Join? && e.allowBackfill)
          && exists m | m in cfg.bundle ::
               s.rows[i] == Row(m.id, Some(cfg.checksum(m.sql)), rows[i].appliedAt) && m.id == rows[i].id)
  {
    hide GoodConfig, Run, SqlBlank;
    var optIn := exists e | e in events :: e.Join? && e.allowBackfill;
    RunKeepsRows(Start(rows, clock), events, optIn, cfg);
  }
}
