/** What the migration runner concludes from the rows of its table and its bundle. */
module MigrationStatus {
  import opened Prelude
  import opened JsonText
  import opened Sorting

  datatype Migration = Migration(id: Text, sql: Text, compatible: seq<Text>)

  /** A row of the table; a legacy row may lack its checksum. */
  datatype Row = Row(id: Text, checksum: Option<Text>, appliedAt: int)

  datatype Applied = Applied(id: Text, checksum: Text, appliedAt: int)

  datatype Status = Status(applied: seq<Applied>, skipped: seq<Migration>, pending: seq<Migration>)

  /** Checksums are a function of the SQL text. */
  type Checksum = Text -> Text

  datatype Failure = DuplicateId | UnknownMigration | WrongChecksum | NotNext | OutOfOrder
    | MissingChecksum | LegacyRefused | DatabaseError

  // ---------------------------------------------------------------- the bundle

  ghost predicate UniqueIds(ms: seq<Migration>) {
    forall i, j :: 0 <= i < j < |ms| ==> ms[i].id != ms[j].id
  }

  /** The constructor's check: the first repeated id, if any. */
  method AssertUniqueMigrationIds(ms: seq<Migration>) returns (failure: Option<Text>)
    ensures failure.None? <==> UniqueIds(ms)
    ensures failure.Some? ==>
      exists i, j :: 0 <= i < j < |ms| && ms[i].id == ms[j].id == failure.value
  {
    var seen: set<Text> := {};
    var k := 0;
    while k < |ms|
      invariant 0 <= k <= |ms|
      invariant seen == set i | 0 <= i < k :: ms[i].id
      invariant UniqueIds(ms[..k])
    {
      if ms[k].id in seen {
        return Some(ms[k].id);
      }
      seen := seen + {ms[k].id};
      k := k + 1;
    }
    assert ms[..k] == ms;
    failure := None;
  }

  /** The entry `new Map(...)` keeps for an id: the last one. */
  function FindMigration(ms: seq<Migration>, id: Text): (r: Option<Migration>)
    ensures r.None? <==> forall m | m in ms :: m.id != id
    ensures r.Some? ==> r.value in ms && r.value.id == id
  {
    if ms == [] then None
    else if ms[|ms| - 1].id == id then Some(ms[|ms| - 1])
    else FindMigration(ms[..|ms| - 1], id)
  }

  predicate ChecksumAccepted(a: Applied, m: Migration, checksum: Checksum) {
    a.checksum == checksum(m.sql) || a.checksum in m.compatible
  }

  /** The first objection to the recorded checksums. */
  method AssertAppliedChecksums(applied: seq<Applied>, ms: seq<Migration>, checksum: Checksum)
    returns (failure: Option<Failure>)
    ensures failure == ChecksumFailure(applied, ms, checksum)
  {
    var k := 0;
    while k < |applied|
      invariant 0 <= k <= |applied|
      invariant ChecksumFailure(applied[k..], ms, checksum) == ChecksumFailure(applied, ms, checksum)
    {
      var found := FindMigration(ms, applied[k].id);
      assert applied[k..][0] == applied[k] && applied[k..][1..] == applied[k + 1..];
      if found.None? {
        return Some(UnknownMigration);
      }
      if !ChecksumAccepted(applied[k], found.value, checksum) {
        return Some(WrongChecksum);
      }
      k := k + 1;
    }
    failure := None;
  }

  function ChecksumFailure(applied: seq<Applied>, ms: seq<Migration>, checksum: Checksum): Option<Failure> {
    if applied == [] then None
    else
      match FindMigration(ms, applied[0].id)
      case None => Some(UnknownMigration)
      case Some(m) =>
        if !ChecksumAccepted(applied[0], m, checksum) then Some(WrongChecksum)
        else ChecksumFailure(applied[1..], ms, checksum)
  }

  /** The first objection to the order of the recorded migrations. */
  method AssertBundledPrefix(applied: seq<Applied>, ms: seq<Migration>) returns (failure: Option<Failure>)
    ensures failure == PrefixFailure(applied, ms, 0)
  {
    var index := 0;
    while index < |applied|
      invariant 0 <= index <= |applied|
      invariant PrefixFailure(applied, ms, index) == PrefixFailure(applied, ms, 0)
    {
      if index >= |ms| || ms[index].id != applied[index].id {
        return Some(NotNext);
      }
      if index > 0 && applied[index].appliedAt < applied[index - 1].appliedAt {
        return Some(OutOfOrder);
      }
      index := index + 1;
    }
    failure := None;
  }

  function PrefixFailure(applied: seq<Applied>, ms: seq<Migration>, index: nat): Option<Failure>
    decreases |applied| - index
  {
    if index >= |applied| then None
    else if index >= |ms| || ms[index].id != applied[index].id then Some(NotNext)
    else if index > 0 && applied[index].appliedAt < applied[index - 1].appliedAt then Some(OutOfOrder)
    else PrefixFailure(applied, ms, index + 1)
  }

  function Keep(ms: seq<Migration>, ids: set<Text>, wanted: bool): (r: seq<Migration>)
    ensures forall m :: m in r <==> m in ms && (m.id in ids <==> wanted)
  {
    if ms == [] then []
    else (if ms[0].id in ids <==> wanted then [ms[0]] else []) + Keep(ms[1..], ids, wanted)
  }

  /** `#createMigrationStatus`. */
  function CreateStatus(applied: seq<Applied>, ms: seq<Migration>, checksum: Checksum)
    : Result<Status, Failure>
  {
    match ChecksumFailure(applied, ms, checksum)
    case Some(e) => Err(e)
    case None =>
      match PrefixFailure(applied, ms, 0)
      case Some(e) => Err(e)
      case None =>
        var ids := set a | a in applied :: a.id;
        Ok(Status(applied, Keep(ms, ids, true), Keep(ms, ids, false)))
  }

  // ---------------------------------------------------------------- what a status means

  /** The recorded ids are the first of the bundle. */
  ghost predicate IsPrefix(applied: seq<Applied>, ms: seq<Migration>) {
    |applied| <= |ms| && forall i :: 0 <= i < |applied| ==> applied[i].id == ms[i].id
  }

  ghost predicate TimesAscend(applied: seq<Applied>) {
    forall i :: 0 < i < |applied| ==> applied[i - 1].appliedAt <= applied[i].appliedAt
  }

  ghost predicate ChecksumsMatch(applied: seq<Applied>, ms: seq<Migration>, checksum: Checksum)
    requires IsPrefix(applied, ms)
  {
    forall i :: 0 <= i < |applied| ==>
      applied[i].checksum == checksum(ms[i].sql) || applied[i].checksum in ms[i].compatible
  }

  lemma {:induction false} FindInUnique(ms: seq<Migration>, i: nat)
    requires UniqueIds(ms) && i < |ms|
    ensures FindMigration(ms, ms[i].id) == Some(ms[i])
  {
    var m := FindMigration(ms, ms[i].id);
    assert ms[i] in ms;
    var j :| 0 <= j < |ms| && ms[j] == m.value;
    assert i == j || i < j || j < i;
  }

  lemma {:induction false} PrefixFailureExact(applied: seq<Applied>, ms: seq<Migration>, index: nat)
    requires index <= |applied|
    requires index <= |ms| && forall i :: 0 <= i < index ==> applied[i].id == ms[i].id
    requires forall i :: 0 < i < index ==> applied[i - 1].appliedAt <= applied[i].appliedAt
    ensures PrefixFailure(applied, ms, index).None? <==> IsPrefix(applied, ms) && TimesAscend(applied)
    decreases |applied| - index
  {
    if index < |applied| && index < |ms| && ms[index].id == applied[index].id
       && !(index > 0 && applied[index].appliedAt < applied[index - 1].appliedAt) {
      PrefixFailureExact(applied, ms, index + 1);
    }
  }

  lemma {:induction false} ChecksumFailureExact(applied: seq<Applied>, ms: seq<Migration>, checksum: Checksum)
    ensures ChecksumFailure(applied, ms, checksum).None? <==>
      forall a | a in applied ::
        FindMigration(ms, a.id).Some? && ChecksumAccepted(a, FindMigration(ms, a.id).value, checksum)
    decreases |applied|
  {
    if applied != [] {
      assert applied[0] in applied;
      assert forall a :: a in applied <==> a == applied[0] || a in applied[1..];
      ChecksumFailureExact(applied[1..], ms, checksum);
    }
  }

  /** An objection to checksums is to the first row that deserves one: unknown, or a checksum not accepted. */
  lemma {:induction false} ChecksumFailureIsFirst(applied: seq<Applied>, ms: seq<Migration>, checksum: Checksum)
    returns (k: nat)
    requires ChecksumFailure(applied, ms, checksum).Some?
    ensures k < |applied|
    ensures forall j | 0 <= j < k ::
      FindMigration(ms, applied[j].id).Some? && Accepts(FindMigration(ms, applied[j].id).value, applied[j], checksum)
    ensures ChecksumFailure(applied, ms, checksum) ==
      if forall m | m in ms :: m.id != applied[k].id then Some(UnknownMigration) else Some(WrongChecksum)
    ensures FindMigration(ms, applied[k].id).Some? ==>
      !Accepts(FindMigration(ms, applied[k].id).value, applied[k], checksum)
    decreases |applied|
  {
    var found := FindMigration(ms, applied[0].id);
    if found.None? || !ChecksumAccepted(applied[0], found.value, checksum) {
      k := 0;
    } else {
      var next := ChecksumFailureIsFirst(applied[1..], ms, checksum);
      k := next + 1;
      forall j | 0 <= j < k
        ensures FindMigration(ms, applied[j].id).Some?
             && Accepts(FindMigration(ms, applied[j].id).value, applied[j], checksum)
      {
        assert j > 0 ==> applied[1..][j - 1] == applied[j];
      }
    }
  }

  /** The recorded checksum is that of the bundled SQL, or one the bundle lists as compatible. */
  predicate Accepts(m: Migration, a: Applied, checksum: Checksum) {
    a.checksum == checksum(m.sql) || exists i :: 0 <= i < |m.compatible| && m.compatible[i] == a.checksum
  }

  /** An objection to the order is to the first row out of place, or earlier than the one before. */
  lemma {:induction false} PrefixFailureIsFirst(applied: seq<Applied>, ms: seq<Migration>, index: nat) returns (k: nat)
    requires PrefixFailure(applied, ms, index).Some? && index <= |ms|
    ensures index <= k < |applied|
    ensures k <= |ms| && forall j | index <= j < k :: ms[j].id == applied[j].id
    ensures forall j | index <= j < k && j > 0 :: applied[j - 1].appliedAt <= applied[j].appliedAt
    ensures PrefixFailure(applied, ms, index) ==
      if k >= |ms| || ms[k].id != applied[k].id then Some(NotNext) else Some(OutOfOrder)
    ensures k < |ms| && ms[k].id == applied[k].id ==> k > 0 && applied[k].appliedAt < applied[k - 1].appliedAt
    decreases |applied| - index
  {
    if index >= |ms| || ms[index].id != applied[index].id
       || (index > 0 && applied[index].appliedAt < applied[index - 1].appliedAt) {
      k := index;
    } else {
      k := PrefixFailureIsFirst(applied, ms, index + 1);
    }
  }

  /** A status that fails gives the objection to the checksums, if there is one, and else that to the order. */
  lemma StatusFailsWith(applied: seq<Applied>, ms: seq<Migration>, checksum: Checksum)
    ensures CreateStatus(applied, ms, checksum).Err? ==>
      Some(CreateStatus(applied, ms, checksum).error) ==
        if ChecksumFailure(applied, ms, checksum).Some? then ChecksumFailure(applied, ms, checksum)
        else PrefixFailure(applied, ms, 0)
  {
  }

  lemma {:induction false} KeepNone(ms: seq<Migration>, ids: set<Text>)
    requires forall i :: 0 <= i < |ms| ==> ms[i].id !in ids
    ensures Keep(ms, ids, true) == [] && Keep(ms, ids, false) == ms
    decreases |ms|
  {
    if ms != [] {
      assert Keep(ms, ids, true) == [] + Keep(ms[1..], ids, true);
      assert Keep(ms, ids, false) == [ms[0]] + Keep(ms[1..], ids, false);
      hide Keep;
      KeepNone(ms[1..], ids);
      assert ms == [ms[0]] + ms[1..];
    }
  }

  lemma {:induction false} KeepPrefix(ms: seq<Migration>, n: nat, ids: set<Text>)
    requires UniqueIds(ms) && n <= |ms|
    requires forall i :: 0 <= i < |ms| ==> (ms[i].id in ids <==> i < n)
    ensures Keep(ms, ids, true) == ms[..n] && Keep(ms, ids, false) == ms[n..]
    decreases |ms|
  {
    if n == 0 {
      KeepNone(ms, ids);
    } else {
      assert ms == [ms[0]] + ms[1..];
      forall i | 0 <= i < |ms[1..]| ensures ms[1..][i].id in ids <==> i < n - 1 {
        assert ms[1..][i] == ms[i + 1];
      }
      KeepPrefix(ms[1..], n - 1, ids);
      assert ms[0].id in ids;
      assert ms[..n] == [ms[0]] + ms[1..][..n - 1];
      assert ms[n..] == ms[1..][n - 1..];
    }
  }

  /**
   A status exists exactly when the applied ids are a prefix of the bundle in order, recorded at
   non-decreasing times, each with the bundled checksum or a listed compatible one; then skipped
   is that prefix and pending the rest. Gaps, reorderings, unknown ids and overlong histories fail.
   */
  lemma StatusIsPrefix(applied: seq<Applied>, ms: seq<Migration>, checksum: Checksum)
    requires UniqueIds(ms)
    ensures CreateStatus(applied, ms, checksum).Ok?
      <==> IsPrefix(applied, ms) && TimesAscend(applied) && ChecksumsMatch(applied, ms, checksum)
    ensures CreateStatus(applied, ms, checksum).Ok? ==>
      CreateStatus(applied, ms, checksum).value == Status(applied, ms[..|applied|], ms[|applied|..])
  {
    PrefixFailureExact(applied, ms, 0);
    ChecksumFailureExact(applied, ms, checksum);
    if IsPrefix(applied, ms) {
      forall i | 0 <= i < |applied| ensures FindMigration(ms, applied[i].id) == Some(ms[i]) {
        FindInUnique(ms, i);
      }
      assert ChecksumFailure(applied, ms, checksum).None? ==> ChecksumsMatch(applied, ms, checksum) by {
        assert forall i :: 0 <= i < |applied| ==> applied[i] in applied;
      }
      var ids := set a | a in applied :: a.id;
      forall i | 0 <= i < |ms| ensures ms[i].id in ids <==> i < |applied| {
        if i < |applied| {
          assert applied[i] in applied;
        }
        if ms[i].id in ids {
          var k :| 0 <= k < |applied| && applied[k].id == ms[i].id;
          assert k == i || k < i || i < k;
        }
      }
      KeepPrefix(ms, |applied|, ids);
    }
  }

  // ---------------------------------------------------------------- reading and repairing the table

  /** `btrim` removes spaces only; JavaScript's `trim` removes every white space. */
  predicate SqlBlank(t: Option<Text>) {
    t.None? || forall i :: 0 <= i < |t.value| ==> t.value[i] == 0x20
  }

  predicate JsSpace(u: Unit) {
    0x09 <= u <= 0x0D || u == 0x20 || u == 0xA0 || u == 0x1680 || 0x2000 <= u <= 0x200A
    || u == 0x2028 || u == 0x2029 || u == 0x202F || u == 0x205F || u == 0x3000 || u == 0xFEFF
  }

  /** The 25 code units that `trim` removes: the white space and line terminators of ECMA-262. */
  lemma WhiteSpace(u: Unit)
    ensures JsSpace(u) <==> u in {0x09, 0x0A, 0x0B, 0x0C, 0x0D, 0x20, 0xA0, 0x1680, 0x2000, 0x2001, 0x2002, 0x2003,
      0x2004, 0x2005, 0x2006, 0x2007, 0x2008, 0x2009, 0x200A, 0x2028, 0x2029, 0x202F, 0x205F, 0x3000, 0xFEFF}
  {
  }

  predicate JsBlank(t: Option<Text>) {
    t.None? || forall i :: 0 <= i < |t.value| ==> JsSpace(t.value[i])
  }

  /** Every checksum the database calls blank is one the program rejects, but not the reverse. */
  lemma BlankChecksums(t: Option<Text>)
    ensures SqlBlank(t) ==> JsBlank(t)
    ensures JsBlank(Some([0x09])) && !SqlBlank(Some([0x09]))
  {
    assert [0x09][0] != 0x20;
  }

  function RowOrder(compareIds: (Text, Text) -> int): (Row, Row) -> int {
    (a: Row, b: Row) => compareIds(a.id, b.id)
  }

  /** `SELECT ... ORDER BY id ASC`, failing on a row without a checksum. */
  function ReadApplied(rows: seq<Row>, compareIds: (Text, Text) -> int): Result<seq<Applied>, Failure> {
    var ordered := Sort(rows, RowOrder(compareIds));
    if exists i | 0 <= i < |ordered| :: JsBlank(ordered[i].checksum) then Err(MissingChecksum)
    else Ok(MapRows(ordered))
  }

  /** Reading refuses exactly a table in which some checksum is blank, whatever its order. */
  lemma ReadFailsIff(rows: seq<Row>, compareIds: (Text, Text) -> int)
    ensures ReadApplied(rows, compareIds).Err? <==> exists row | row in rows :: JsBlank(row.checksum)
    ensures ReadApplied(rows, compareIds).Err? ==> ReadApplied(rows, compareIds).error == MissingChecksum
  {
    hide Sort, JsBlank, RowOrder;
    SortMembers(rows, RowOrder(compareIds));
    var ordered := Sort(rows, RowOrder(compareIds));
    if row :| row in rows && JsBlank(row.checksum) {
      assert row in ordered;
    }
  }

  function MapRows(rows: seq<Row>): (r: seq<Applied>)
    ensures |r| == |rows|
    ensures forall i :: 0 <= i < |r| ==> r[i].id == rows[i].id && r[i].appliedAt == rows[i].appliedAt
    ensures forall i :: 0 <= i < |r| && rows[i].checksum.Some? ==> r[i].checksum == rows[i].checksum.value
  {
    seq(|rows|, i requires 0 <= i < |rows| =>
      Applied(rows[i].id, if rows[i].checksum.Some? then rows[i].checksum.value else [], rows[i].appliedAt))
  }

  /** Fill blank checksums of the first `n` migrations of the bundle. */
  function Backfill(rows: seq<Row>, ms: seq<Migration>, n: nat, checksum: Checksum): (r: seq<Row>)
    requires n <= |ms|
    ensures |r| == |rows|
    ensures forall i :: 0 <= i < |r| ==>
      && r[i].id == rows[i].id && r[i].appliedAt == rows[i].appliedAt
      && (!SqlBlank(rows[i].checksum) ==> r[i] == rows[i])
  {
    if n == 0 then rows
    else
      var before := Backfill(rows, ms, n - 1, checksum);
      var m := ms[n - 1];
      seq(|before|, i requires 0 <= i < |before| =>
        if before[i].id == m.id && SqlBlank(before[i].checksum)
        then before[i].(checksum := Some(checksum(m.sql))) else before[i])
  }

  /** Backfilling gives each repairable row the checksum of its migration and touches no other. */
  lemma {:induction false} BackfillExact(rows: seq<Row>, ms: seq<Migration>, n: nat, checksum: Checksum, i: nat)
    requires n <= |ms| && UniqueIds(ms) && i < |rows|
    requires forall sql: Text :: !SqlBlank(Some(checksum(sql)))
    ensures forall k | 0 <= k < n && ms[k].id == rows[i].id && SqlBlank(rows[i].checksum) ::
      Backfill(rows, ms, n, checksum)[i] == rows[i].(checksum := Some(checksum(ms[k].sql)))
    ensures !SqlBlank(rows[i].checksum) || (forall k | 0 <= k < n :: ms[k].id != rows[i].id) ==>
      Backfill(rows, ms, n, checksum)[i] == rows[i]
    decreases n
  {
    if n > 0 {
      BackfillExact(rows, ms, n - 1, checksum, i);
      BackfillOne(rows, ms, n, checksum, i);
      assert forall k | 0 <= k < n - 1 :: ms[k].id != ms[n - 1].id;
      hide Backfill, UniqueIds, SqlBlank;
    }
  }

  /** The last of the updates repairs a row that is still blank and belongs to its migration. */
  lemma BackfillOne(rows: seq<Row>, ms: seq<Migration>, n: nat, checksum: Checksum, i: nat)
    requires 0 < n <= |ms| && i < |rows|
    ensures var before, m := Backfill(rows, ms, n - 1, checksum)[i], ms[n - 1];
      Backfill(rows, ms, n, checksum)[i]
        == if before.id == m.id && SqlBlank(before.checksum) then before.(checksum := Some(checksum(m.sql))) else before
  {
    hide SqlBlank;
  }

  /** The ensure step when every statement succeeds: the repaired rows, or why it refuses. */
  function Ensure(rows: seq<Row>, ms: seq<Migration>, allowBackfill: bool, checksum: Checksum)
    : Result<seq<Row>, Failure>
  {
    if (exists row | row in rows :: SqlBlank(row.checksum)) && !allowBackfill then Err(LegacyRefused)
    else
      var repaired := if allowBackfill then Backfill(rows, ms, |ms|, checksum) else rows;
      if exists row | row in repaired :: row.checksum.None? then Err(DatabaseError)
      else Ok(repaired)
  }

  /** After repair only a missing checksum that no bundled migration supplies is still missing. */
  lemma RepairedMissing(rows: seq<Row>, ms: seq<Migration>, checksum: Checksum, i: nat)
    requires UniqueIds(ms) && i < |rows|
    requires forall sql: Text :: !SqlBlank(Some(checksum(sql)))
    ensures Backfill(rows, ms, |ms|, checksum)[i].checksum.None?
      <==> rows[i].checksum.None? && forall m | m in ms :: m.id != rows[i].id
  {
    hide Backfill;
    BackfillExact(rows, ms, |ms|, checksum, i);
    if m :| m in ms && m.id == rows[i].id {
      var k :| 0 <= k < |ms| && ms[k] == m;
    } else {
      forall k | 0 <= k < |ms| ensures ms[k].id != rows[i].id {
        assert ms[k] in ms;
      }
    }
  }

  /**
   The ensure step refuses exactly the tables it must: those with a blank checksum, unless repair
   is allowed, and then those where a missing checksum belongs to no bundled migration.
   */
  lemma EnsureSucceedsIff(rows: seq<Row>, ms: seq<Migration>, allowBackfill: bool, checksum: Checksum)
    requires UniqueIds(ms) && forall sql: Text :: !SqlBlank(Some(checksum(sql)))
    ensures Ensure(rows, ms, allowBackfill, checksum).Ok? <==>
      if allowBackfill
      then forall row | row in rows && row.checksum.None? :: exists m | m in ms :: m.id == row.id
      else forall row | row in rows :: !SqlBlank(row.checksum)
    ensures Ensure(rows, ms, allowBackfill, checksum).Err? ==>
      Ensure(rows, ms, allowBackfill, checksum).error == if allowBackfill then DatabaseError else LegacyRefused
    ensures Ensure(rows, ms, allowBackfill, checksum).Ok? && !allowBackfill ==>
      Ensure(rows, ms, allowBackfill, checksum).value == rows
  {
    hide Backfill;
    if allowBackfill {
      var repaired := Backfill(rows, ms, |ms|, checksum);
      if row :| row in rows && row.checksum.None? && forall m | m in ms :: m.id != row.id {
        var i :| 0 <= i < |rows| && rows[i] == row;
        RepairedMissing(rows, ms, checksum, i);
        assert repaired[i] in repaired;
      } else {
        forall row | row in repaired ensures row.checksum.Some? {
          var i :| 0 <= i < |repaired| && repaired[i] == row;
          assert rows[i] in rows;
          RepairedMissing(rows, ms, checksum, i);
        }
      }
    }
  }

  ghost predicate Bundled(row: Row, ms: seq<Migration>) {
    exists m | m in ms :: m.id == row.id
  }

  /** A repaired row is unreadable exactly when it was and the repair did not reach it. */
  lemma RepairedBlank(rows: seq<Row>, ms: seq<Migration>, checksum: Checksum, i: nat)
    requires UniqueIds(ms) && i < |rows| && forall sql: Text :: !JsBlank(Some(checksum(sql)))
    ensures JsBlank(Backfill(rows, ms, |ms|, checksum)[i].checksum)
      <==> JsBlank(rows[i].checksum) && !(SqlBlank(rows[i].checksum) && Bundled(rows[i], ms))
  {
    hide Backfill, SqlBlank, JsBlank;
    BlankChecksums(rows[i].checksum);
    forall sql: Text ensures !SqlBlank(Some(checksum(sql))) {
      BlankChecksums(Some(checksum(sql)));
    }
    BackfillExact(rows, ms, |ms|, checksum, i);
    if Bundled(rows[i], ms) {
      var m :| m in ms && m.id == rows[i].id;
      var k :| 0 <= k < |ms| && ms[k] == m;
    } else {
      forall k | 0 <= k < |ms| ensures ms[k].id != rows[i].id {
        assert ms[k] in ms;
      }
    }
  }

  /**
   After a repair the table can be read exactly when every checksum the program calls blank is one
   the database calls blank too, in a row of a bundled migration.
   */
  lemma RepairedReadsIff(rows: seq<Row>, repaired: seq<Row>, ms: seq<Migration>, checksum: Checksum,
                         compareIds: (Text, Text) -> int)
    requires UniqueIds(ms) && forall sql: Text :: !JsBlank(Some(checksum(sql)))
    requires Ensure(rows, ms, true, checksum) == Ok(repaired)
    ensures ReadApplied(repaired, compareIds).Ok? <==>
      forall row | row in rows && JsBlank(row.checksum) :: SqlBlank(row.checksum) && Bundled(row, ms)
  {
    hide Backfill, SqlBlank, JsBlank, Bundled, Sort;
    assert repaired == Backfill(rows, ms, |ms|, checksum);
    var ordered := Sort(repaired, RowOrder(compareIds));
    SortMembers(repaired, RowOrder(compareIds));
    if i :| 0 <= i < |ordered| && JsBlank(ordered[i].checksum) {
      assert ordered[i] in repaired;
      var k :| 0 <= k < |repaired| && repaired[k] == ordered[i];
      RepairedBlank(rows, ms, checksum, k);
      assert rows[k] in rows;
    } else {
      forall row | row in rows && JsBlank(row.checksum) ensures SqlBlank(row.checksum) && Bundled(row, ms) {
        var k :| 0 <= k < |rows| && rows[k] == row;
        RepairedBlank(rows, ms, checksum, k);
        assert repaired[k] in ordered;
      }
    }
  }

  /** Any number of spaces for a checksum is repaired. */
  lemma SpacesAreRepaired(m: Migration, blank: Text, appliedAt: int, checksum: Checksum)
    requires forall u | u in blank :: u == 0x20
    ensures Ensure([Row(m.id, Some(blank), appliedAt)], [m], true, checksum)
         == Ok([Row(m.id, Some(checksum(m.sql)), appliedAt)])
  {
    var row := Row(m.id, Some(blank), appliedAt);
    assert SqlBlank(row.checksum) by {
      assert forall i :: 0 <= i < |blank| ==> blank[i] in blank;
    }
    hide SqlBlank;
    assert Backfill([row], [m], 0, checksum) == [row];
    assert Backfill([row], [m], 1, checksum) == [Row(m.id, Some(checksum(m.sql)), appliedAt)];
  }

  /** A tab for a checksum: the repair leaves it, the ensure step succeeds, and the read is refused. */
  lemma TabChecksumStaysUnreadable(m: Migration, appliedAt: int, checksum: Checksum, compareIds: (Text, Text) -> int)
    ensures var row := Row(m.id, Some([0x09]), appliedAt);
      && Ensure([row], [m], true, checksum) == Ok([row])
      && ReadApplied([row], compareIds) == Err(MissingChecksum)
  {
    var row := Row(m.id, Some([0x09]), appliedAt);
    BlankChecksums(row.checksum);
    assert Backfill([row], [m], 0, checksum) == [row];
    assert Backfill([row], [m], 1, checksum) == [row];
    SortMembers([row], RowOrder(compareIds));
    var ordered := Sort([row], RowOrder(compareIds));
    assert ordered[0] in ordered;
    assert ordered[0] == row && JsBlank(ordered[0].checksum);
  }
}
