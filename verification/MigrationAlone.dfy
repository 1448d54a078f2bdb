/** A runner that nothing disturbs, from its start to its end: what migrating is for. */
module MigrationAlone {
  import opened Prelude
  import opened JsonText
  import opened MigrationStatus
  import opened MigrationProtocol

  /** As many times the same event. */
  function Repeat(e: Event, n: nat): seq<Event> {
    if n == 0 then [] else [e] + Repeat(e, n - 1)
  }

  /** The steps of a runner that finds `n` migrations pending. */
  function MigrateEvents(r: RunnerId, allow: bool, now: int, n: nat): seq<Event> {
    [Join(r, allow)] + ([Acquire(r)] + ([EnsureTable(r)] + ([Check(r)] + WorkEvents(r, now, n))))
  }

  function WorkEvents(r: RunnerId, now: int, n: nat): seq<Event> {
    if n == 0 then [Unlock(r)] + []
    else [Begin(r, now)] + (Repeat(ApplyOne(r), n) + ([Commit(r, true)] + ([Unlock(r)] + [])))
  }

  lemma RunNext(s: State, e: Event, s1: State, rest: seq<Event>, cfg: Config)
    requires Apply(s, e, cfg) == Some(s1)
    ensures Run(s, [e] + rest, cfg) == Run(s1, rest, cfg)
  {
    hide Apply;
    assert ([e] + rest)[1..] == rest;
  }

  lemma RunEnd(s: State, cfg: Config)
    ensures Run(s, [], cfg) == Some(s)
  {
  }

  lemma SamePlace(s: State, r: RunnerId, a: Option<RunnerId>, b: Option<RunnerId>, allow: bool, p: Pc, q: Pc)
    ensures With(With(s, r, a, allow, p), r, b, allow, q) == With(s, r, b, allow, q)
  {
    assert s.runners[r := Runner(allow, p)][r := Runner(allow, q)] == s.runners[r := Runner(allow, q)];
  }

  // ---------------------------------------------------------------- the transaction

  /** The first `k` pending migrations have been run in the open transaction. */
  function Working(s: State, r: RunnerId, allow: bool, status: Status, k: nat, now: int, cfg: Config): State
    requires k <= |status.pending|
  {
    With(s.(open := Transaction(NewRows(status.pending[..k], now, cfg.checksum), Ids(status.pending[..k]))),
         r, Some(r), allow, Applying(status, k, now))
  }

  lemma WorkStep(s: State, r: RunnerId, allow: bool, status: Status, k: nat, now: int, cfg: Config)
    requires k < |status.pending|
    ensures Apply(Working(s, r, allow, status, k, now, cfg), ApplyOne(r), cfg)
         == Some(Working(s, r, allow, status, k + 1, now, cfg))
  {
    OneMore(status.pending, k, now, cfg.checksum);
    var w := Working(s, r, allow, status, k, now, cfg);
    assert w.runners[r := Runner(allow, Applying(status, k + 1, now))]
        == s.runners[r := Runner(allow, Applying(status, k + 1, now))];
  }

  lemma {:induction false} WorkAll(s: State, r: RunnerId, allow: bool, status: Status, k: nat, now: int,
                                   rest: seq<Event>, cfg: Config)
    requires k <= |status.pending|
    ensures Run(Working(s, r, allow, status, k, now, cfg), Repeat(ApplyOne(r), |status.pending| - k) + rest, cfg)
         == Run(Working(s, r, allow, status, |status.pending|, now, cfg), rest, cfg)
    decreases |status.pending| - k
  {
    hide Apply, Run, Working;
    var n := |status.pending| - k;
    if n == 0 {
      assert Repeat(ApplyOne(r), 0) + rest == rest;
    } else {
      var more := Repeat(ApplyOne(r), n - 1) + rest;
      assert Repeat(ApplyOne(r), n) + rest == [ApplyOne(r)] + more;
      WorkStep(s, r, allow, status, k, now, cfg);
      RunNext(Working(s, r, allow, status, k, now, cfg), ApplyOne(r), Working(s, r, allow, status, k + 1, now, cfg),
              more, cfg);
      WorkAll(s, r, allow, status, k + 1, now, rest, cfg);
    }
  }

  /** What a commit of all pending migrations makes of the database. */
  function Migrated(s: State, r: RunnerId, status: Status, now: int, cfg: Config): State {
    s.(rows := s.rows + NewRows(status.pending, now, cfg.checksum), executed := s.executed + Ids(status.pending),
       commits := s.commits + [Report(r, status.pending, true)], clock := now)
  }

  lemma BeginStep(s: State, r: RunnerId, allow: bool, status: Status, now: int, cfg: Config)
    requires Current(s.rows, cfg) == Ok(status) && status.pending != [] && s.clock <= now && s.open == NOTHING
    ensures Apply(With(s, r, Some(r), allow, Pending), Begin(r, now), cfg)
         == Some(Working(s.(clock := now), r, allow, status, 0, now, cfg))
  {
    hide Current;
    assert s.runners[r := Runner(allow, Pending)][r := Runner(allow, Applying(status, 0, now))]
        == s.runners[r := Runner(allow, Applying(status, 0, now))];
  }

  lemma CommitStep(s: State, r: RunnerId, allow: bool, status: Status, now: int, cfg: Config)
    requires s.open == NOTHING && s.clock == now
    ensures Apply(Working(s, r, allow, status, |status.pending|, now, cfg), Commit(r, true), cfg)
         == Some(With(Migrated(s, r, status, now, cfg), r, Some(r), allow,
                      Leaving(Succeeded(status.pending, status.skipped))))
  {
    assert status.pending[..|status.pending|] == status.pending;
    var pc := Leaving(Succeeded(status.pending, status.skipped));
    assert s.runners[r := Runner(allow, Applying(status, |status.pending|, now))][r := Runner(allow, pc)]
        == s.runners[r := Runner(allow, pc)];
  }

  lemma UnlockStep(s: State, r: RunnerId, allow: bool, outcome: Outcome, cfg: Config)
    ensures Apply(With(s, r, Some(r), allow, Leaving(outcome)), Unlock(r), cfg)
         == Some(With(s, r, None, allow, Done(outcome)))
  {
    SamePlace(s, r, Some(r), None, allow, Leaving(outcome), Done(outcome));
  }

  /** From the check on: nothing to do, or one transaction with everything that is pending. */
  lemma WorkAlone(s: State, r: RunnerId, allow: bool, status: Status, now: int, cfg: Config)
    requires Current(s.rows, cfg) == Ok(status) && s.clock <= now && s.open == NOTHING
    ensures Run(With(s, r, Some(r), allow, Ensured), [Check(r)] + WorkEvents(r, now, |status.pending|), cfg) ==
      Some(With(if status.pending == [] then s else Migrated(s, r, status, now, cfg), r, None, allow,
                Done(Succeeded(status.pending, status.skipped))))
  {
    hide Current, Apply, Run, With, Working, Migrated;
    var outcome := Succeeded(status.pending, status.skipped);
    var first := With(s, r, Some(r), allow, Ensured);
    var n := |status.pending|;
    CheckStep(s, r, allow, status, cfg);
    if status.pending == [] {
      RunNext(first, Check(r), With(s, r, Some(r), allow, Leaving(outcome)), [Unlock(r)] + [], cfg);
      EndAlone(s, r, allow, outcome, cfg);
    } else {
      var last := [Commit(r, true)] + ([Unlock(r)] + []);
      var ticked := s.(clock := now);
      RunNext(first, Check(r), With(s, r, Some(r), allow, Pending), WorkEvents(r, now, n), cfg);
      BeginStep(s, r, allow, status, now, cfg);
      RunNext(With(s, r, Some(r), allow, Pending), Begin(r, now), Working(ticked, r, allow, status, 0, now, cfg),
              Repeat(ApplyOne(r), n) + last, cfg);
      WorkAll(ticked, r, allow, status, 0, now, last, cfg);
      CommitStep(ticked, r, allow, status, now, cfg);
      var done := Migrated(ticked, r, status, now, cfg);
      RunNext(Working(ticked, r, allow, status, n, now, cfg), Commit(r, true),
              With(done, r, Some(r), allow, Leaving(outcome)), [Unlock(r)] + [], cfg);
      EndAlone(done, r, allow, outcome, cfg);
      SameEnd(s, r, status, now, cfg);
    }
  }

  lemma SameEnd(s: State, r: RunnerId, status: Status, now: int, cfg: Config)
    ensures Migrated(s.(clock := now), r, status, now, cfg) == Migrated(s, r, status, now, cfg)
  {
  }

  lemma EndAlone(s: State, r: RunnerId, allow: bool, outcome: Outcome, cfg: Config)
    ensures Run(With(s, r, Some(r), allow, Leaving(outcome)), [Unlock(r)] + [], cfg)
         == Some(With(s, r, None, allow, Done(outcome)))
  {
    hide Apply, Run, With;
    UnlockStep(s, r, allow, outcome, cfg);
    RunNext(With(s, r, Some(r), allow, Leaving(outcome)), Unlock(r), With(s, r, None, allow, Done(outcome)), [], cfg);
    RunEnd(With(s, r, None, allow, Done(outcome)), cfg);
  }

  lemma CheckStep(s: State, r: RunnerId, allow: bool, status: Status, cfg: Config)
    requires Current(s.rows, cfg) == Ok(status)
    ensures Apply(With(s, r, Some(r), allow, Ensured), Check(r), cfg) ==
      Some(With(s, r, Some(r), allow,
                if status.pending == [] then Leaving(Succeeded(status.pending, status.skipped)) else Pending))
  {
    hide Current;
    var pc := if status.pending == [] then Leaving(Succeeded([], status.skipped)) else Pending;
    SamePlace(s, r, Some(r), Some(r), allow, Ensured, pc);
  }

  lemma FirstSteps(s: State, r: RunnerId, allow: bool, rows: seq<Row>, cfg: Config)
    requires s.lock.None? && r !in s.runners && Ensure(s.rows, cfg.bundle, allow, cfg.checksum) == Ok(rows)
    ensures Apply(s, Join(r, allow), cfg) == Some(With(s, r, None, allow, Idle))
    ensures Apply(With(s, r, None, allow, Idle), Acquire(r), cfg) == Some(With(s, r, Some(r), allow, Locked))
    ensures Apply(With(s, r, Some(r), allow, Locked), EnsureTable(r), cfg)
         == Some(With(s.(rows := rows), r, Some(r), allow, Ensured))
  {
    hide Ensure;
    SamePlace(s, r, None, Some(r), allow, Idle, Locked);
    SamePlace(s.(rows := rows), r, Some(r), Some(r), allow, Locked, Ensured);
  }

  lemma AllSteps(s: State, r: RunnerId, allow: bool, rows: seq<Row>, status: Status, now: int, cfg: Config)
    requires s.lock.None? && r !in s.runners && s.clock <= now && s.open == NOTHING
    requires Ensure(s.rows, cfg.bundle, allow, cfg.checksum) == Ok(rows) && Current(rows, cfg) == Ok(status)
    ensures var ensured := s.(rows := rows);
      Run(s, MigrateEvents(r, allow, now, |status.pending|), cfg) ==
        Some(With(if status.pending == [] then ensured else Migrated(ensured, r, status, now, cfg), r, None, allow,
                  Done(Succeeded(status.pending, status.skipped))))
  {
    hide Current, Ensure, Apply, Run, WorkEvents, With, Migrated;
    var ensured := s.(rows := rows);
    var work := [Check(r)] + WorkEvents(r, now, |status.pending|);
    FirstSteps(s, r, allow, rows, cfg);
    WorkAlone(ensured, r, allow, status, now, cfg);
    RunNext(With(s, r, Some(r), allow, Locked), EnsureTable(r), With(ensured, r, Some(r), allow, Ensured), work, cfg);
    RunNext(With(s, r, None, allow, Idle), Acquire(r), With(s, r, Some(r), allow, Locked), [EnsureTable(r)] + work, cfg);
    RunNext(s, Join(r, allow), With(s, r, None, allow, Idle), [Acquire(r)] + ([EnsureTable(r)] + work), cfg);
  }

  lemma StatusIs(rows: seq<Row>, cfg: Config)
    requires GoodConfig(cfg) && Current(rows, cfg).Ok?
    ensures |rows| <= |cfg.bundle|
    ensures Current(rows, cfg).value.pending == cfg.bundle[|rows|..]
    ensures Current(rows, cfg).value.skipped == cfg.bundle[..|rows|]
  {
    hide GoodConfig, Current, JsBlank, IsPrefix, TimesAscend, ChecksumsMatch;
    StatusShowsPrefix(rows, cfg);
  }

  /**
   Left alone on a table the ensure step accepts and whose status can be read, a runner succeeds: it
   reports the rest of the bundle as applied and what was there as skipped, exactly those migrations
   have taken effect, and each has its row.
   */
  lemma MigrateAlone(s: State, r: RunnerId, allow: bool, now: int, rows: seq<Row>, cfg: Config) returns (s': State)
    requires GoodConfig(cfg) && s.lock.None? && r !in s.runners && s.clock <= now && s.open == NOTHING
    requires Ensure(s.rows, cfg.bundle, allow, cfg.checksum) == Ok(rows) && Current(rows, cfg).Ok?
    ensures |rows| <= |cfg.bundle|
    ensures Run(s, MigrateEvents(r, allow, now, |cfg.bundle| - |rows|), cfg) == Some(s')
    ensures var n := |rows|;
      && s'.lock.None? && s'.open == NOTHING
      && s'.runners == s.runners[r := Runner(allow, Done(Succeeded(cfg.bundle[n..], cfg.bundle[..n])))]
      && |s'.rows| == |cfg.bundle| && s'.rows[..n] == rows
      && (forall i | n <= i < |cfg.bundle| ::
            s'.rows[i] == Row(cfg.bundle[i].id, Some(cfg.checksum(cfg.bundle[i].sql)), now))
      && s'.executed == s.executed + Ids(cfg.bundle[n..])
  {
    hide GoodConfig, Current, Ensure, Run, MigrateEvents;
    StatusIs(rows, cfg);
    var status := Current(rows, cfg).value;
    AllSteps(s, r, allow, rows, status, now, cfg);
    var ensured := s.(rows := rows);
    s' := With(if status.pending == [] then ensured else Migrated(ensured, r, status, now, cfg), r, None, allow,
               Done(Succeeded(status.pending, status.skipped)));
  }

  /**
   A runner that loses its connection, at any point of any schedule, leaves the lock free and nothing
   half done: a runner started next completes the bundle, and no migration takes effect twice.
   */
  lemma RecoversFromCrash(rows: seq<Row>, clock: int, events: seq<Event>, s: State, r: RunnerId, q: RunnerId,
                          allow: bool, now: int, readable: seq<Row>, cfg: Config) returns (s1: State, s2: State)
    requires GoodConfig(cfg) && RowIdsUnique(rows)
    requires forall i :: 0 <= i < |rows| ==> rows[i].appliedAt <= clock
    requires Run(Start(rows, clock), events, cfg) == Some(s) && r in s.runners && Inside(s.runners[r].pc)
    requires q !in s.runners && s.clock <= now
    requires Ensure(s.rows, cfg.bundle, allow, cfg.checksum) == Ok(readable) && Current(readable, cfg).Ok?
    ensures Apply(s, ConnectionLost(r), cfg) == Some(s1) && s1.rows == s.rows && s1.executed == s.executed
    ensures |readable| <= |cfg.bundle|
    ensures Run(s1, MigrateEvents(q, allow, now, |cfg.bundle| - |readable|), cfg) == Some(s2)
    ensures s2.executed == s.executed + Ids(cfg.bundle[|readable|..]) && NoRepeats(s2.executed)
    ensures |s2.rows| == |cfg.bundle| && s2.rows[..|readable|] == readable
  {
    hide GoodConfig, Current, Ensure, Run, MigrateEvents, RowsGrow, StatusCurrent, ReportsMatch, OpenOk, RowIdsUnique, NoRepeats;
    StartInv(rows, clock, cfg);
    RunKeepsInv(Start(rows, clock), events, rows, cfg);
    s1 := LosesConnection(s, r, cfg);
    hide Apply, LockHeld;
    ApplyKeepsInv(s, ConnectionLost(r), rows, cfg);
    s2 := MigrateAlone(s1, q, allow, now, readable, cfg);
    RunKeepsInv(s1, MigrateEvents(q, allow, now, |cfg.bundle| - |readable|), rows, cfg);
    ExecutedOnce(s2, rows, cfg);
  }

  lemma LosesConnection(s: State, r: RunnerId, cfg: Config) returns (s1: State)
    requires LockHeld(s) && r in s.runners && Inside(s.runners[r].pc)
    ensures Apply(s, ConnectionLost(r), cfg) == Some(s1)
    ensures s1.lock.None? && s1.open == NOTHING && s1.clock == s.clock && s1.runners.Keys == s.runners.Keys
    ensures s1.rows == s.rows && s1.executed == s.executed
  {
    s1 := Apply(s, ConnectionLost(r), cfg).value;
  }

  lemma ExecutedOnce(s: State, init: seq<Row>, cfg: Config)
    requires GoodConfig(cfg) && RowsGrow(s, init, cfg)
    ensures NoRepeats(s.executed)
  {
    if s.executed != [] {
      var ids := Ids(cfg.bundle);
      forall i, j | 0 <= i < j < |s.executed| ensures s.executed[i] != s.executed[j] {
        assert s.executed[i] == ids[|init| + i] && s.executed[j] == ids[|init| + j];
      }
    }
  }
}
