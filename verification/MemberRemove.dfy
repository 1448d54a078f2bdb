/** `member.remove`: execute, conflict check and undo, with their row counts and early exits. */
module MemberRemove {
  import opened Prelude
  import opened JsonText
  import opened DemoState

  /** What execute saves for undo; times have lost their microseconds. */
  datatype Snapshot = Snapshot(
    memberId: Text, workspaceId: Text, name: Text, email: Text, role: Role,
    createdAtMs: int, revision: nat,
    projectIds: seq<Text>, documentIds: seq<Text>)

  datatype Failure =
    | NotFound            // no such member in the workspace
    | Conflict            // the state changed, or the action refuses
    | ForeignKeyViolation // the database rejected a statement

  /** A JavaScript date keeps whole milliseconds of a stored time. */
  function ToMillis(micros: int): int {
    micros / 1000
  }

  function FromMillis(millis: int): int {
    millis * 1000
  }

  function TakeSnapshot(memberId: Text, m: Member, projectIds: seq<Text>, documentIds: seq<Text>)
    : Snapshot
  {
    Snapshot(memberId, m.workspaceId, m.name, m.email, m.role, ToMillis(m.createdAt), m.revision,
             projectIds, documentIds)
  }

  // ---------------------------------------------------------------- execute

  /** The ids `readDemoOwnershipImpact` lists. */
  function OwnedIn<T>(items: map<Text, Item<T>>, workspaceId: Text, member: Text): set<Text> {
    set i | i in items && items[i].owner == Some(member) && items[i].workspaceId == workspaceId
  }

  /** The checks execute makes on the member it read. */
  function ReadMember(db: Db, workspaceId: Text, memberId: Text): Result<Member, Failure> {
    match FindMember(db, workspaceId, memberId)
    case None => Err(NotFound)
    case Some(m) => if m.role == Owner then Err(Conflict) else Ok(m)
  }

  predicate RowMatches(db: Db, snap: Snapshot) {
    && snap.memberId in db.members
    && var m := db.members[snap.memberId];
    && m.workspaceId == snap.workspaceId && m.name == snap.name && m.email == snap.email
    && m.role == snap.role && m.revision == snap.revision
  }

  /**
   Clear the expected links, then delete the member row if it is still the one that was read; the
   row counts of the two updates must match the lists. Any failure rolls the transaction back.
   */
  function DeleteMember(db: Db, snap: Snapshot): Result<Db, Failure> {
    var ws, m, tx := snap.workspaceId, snap.memberId, db.nextTx;
    if |Matching(db.projects, snap.projectIds, ws, Some(m))| != |snap.projectIds| then Err(Conflict)
    else
      var projects := SetOwners(db.projects, snap.projectIds, ws, Some(m), None, tx);
      if |Matching(db.documents, snap.documentIds, ws, Some(m))| != |snap.documentIds| then Err(Conflict)
      else
        var documents := SetOwners(db.documents, snap.documentIds, ws, Some(m), None, tx);
        if !RowMatches(db, snap) then Err(Conflict)
        else if OwnedBy(projects, m) != {} || OwnedBy(documents, m) != {} then Err(ForeignKeyViolation)
        else
          Ok(db.(members := db.members - {m}, projects := projects, documents := documents,
                 nextTx := tx + 1))
  }

  /** What the read answers: no such member, an owner, who is not removed, or the member. */
  lemma ReadAnswers(db: Db, workspaceId: Text, memberId: Text)
    ensures ReadMember(db, workspaceId, memberId) ==
      if memberId !in db.members || db.members[memberId].workspaceId != workspaceId then Err(NotFound)
      else if db.members[memberId].role == Owner then Err(Conflict)
      else Ok(db.members[memberId])
  {
  }

  /** The snapshot holds the row's columns, its creation time in whole milliseconds, and the lists. */
  lemma SnapshotHolds(memberId: Text, m: Member, projectIds: seq<Text>, documentIds: seq<Text>)
    ensures var snap := TakeSnapshot(memberId, m, projectIds, documentIds);
      && snap.memberId == memberId && snap.workspaceId == m.workspaceId && snap.name == m.name
      && snap.email == m.email && snap.role == m.role && snap.revision == m.revision
      && 0 <= m.createdAt - 1000 * snap.createdAtMs < 1000
      && snap.projectIds == projectIds && snap.documentIds == documentIds
  {
  }

  /** Every listed row exists in the workspace and has that owner. */
  ghost predicate AllOwned<T>(items: map<Text, Item<T>>, ids: seq<Text>, workspaceId: Text, owner: Option<Text>) {
    forall x | x in ids :: x in items && items[x].workspaceId == workspaceId && items[x].owner == owner
  }

  /** Exactly the listed rows have a new owner, and that transaction's revision. */
  ghost predicate Reowned<T>(before: map<Text, Item<T>>, after: map<Text, Item<T>>, ids: seq<Text>,
                             owner: Option<Text>, tx: nat) {
    && after.Keys == before.Keys
    && forall x | x in before ::
         after[x] == if x in ids then before[x].(owner := owner, revision := tx) else before[x]
  }

  /** The member row is as the snapshot says, creation time aside. */
  predicate RowAsSaved(db: Db, snap: Snapshot) {
    && snap.memberId in db.members
    && var m := db.members[snap.memberId];
       m == Member(snap.workspaceId, snap.name, snap.email, snap.role, m.createdAt, snap.revision)
  }

  /**
   A removal conflicts when a listed link or the row is not as read, violates a foreign key when the
   member owns anything unlisted, and otherwise clears the listed links and deletes the row.
   */
  lemma DeleteAnswers(db: Db, snap: Snapshot)
    requires DistinctLists(snap)
    ensures var r, ws, m := DeleteMember(db, snap), snap.workspaceId, snap.memberId;
      if !AllOwned(db.projects, snap.projectIds, ws, Some(m)) || !AllOwned(db.documents, snap.documentIds, ws, Some(m))
         || !RowAsSaved(db, snap)
      then r == Err(Conflict)
      else if (exists x | x in db.projects :: x !in snap.projectIds && db.projects[x].owner == Some(m))
              || (exists x | x in db.documents :: x !in snap.documentIds && db.documents[x].owner == Some(m))
      then r == Err(ForeignKeyViolation)
      else
        && r.Ok? && r.value.members == db.members - {m} && r.value.workspaces == db.workspaces
        && Reowned(db.projects, r.value.projects, snap.projectIds, None, db.nextTx)
        && Reowned(db.documents, r.value.documents, snap.documentIds, None, db.nextTx)
        && r.value.nextTx == db.nextTx + 1
  {
    var ws, m := snap.workspaceId, snap.memberId;
    CountIsLength(db.projects, snap.projectIds, ws, Some(m));
    CountIsLength(db.documents, snap.documentIds, ws, Some(m));
    if AllOwned(db.projects, snap.projectIds, ws, Some(m)) && AllOwned(db.documents, snap.documentIds, ws, Some(m)) {
      ClearedLinks(db.projects, snap.projectIds, ws, m, db.nextTx);
      ClearedLinks(db.documents, snap.documentIds, ws, m, db.nextTx);
    }
  }

  lemma ClearedLinks<T>(items: map<Text, Item<T>>, ids: seq<Text>, ws: Text, m: Text, tx: nat)
    requires AllOwned(items, ids, ws, Some(m))
    ensures var after := SetOwners(items, ids, ws, Some(m), None, tx);
      && Reowned(items, after, ids, None, tx)
      && (OwnedBy(after, m) != {} <==> exists x | x in items :: x !in ids && items[x].owner == Some(m))
  {
    var after := SetOwners(items, ids, ws, Some(m), None, tx);
    if x :| x in items && x !in ids && items[x].owner == Some(m) {
      assert x in OwnedBy(after, m);
    }
    if OwnedBy(after, m) != {} {
      var x :| x in OwnedBy(after, m);
      assert x in items && x !in ids;
    }
  }

  // ---------------------------------------------------------------- undo

  predicate AllUnowned<T>(items: map<Text, Item<T>>, ids: seq<Text>, workspaceId: Text) {
    forall x | x in ids ::
      x in items && items[x].workspaceId == workspaceId && items[x].owner == None
  }

  /** `checkConflicts`: the first conflict it throws, if any. */
  function CheckConflicts(db: Db, snap: Snapshot): Option<Failure> {
    if FindMember(db, snap.workspaceId, snap.memberId).Some? then Some(Conflict)
    else if snap.workspaceId !in db.workspaces then Some(Conflict)
    else if EmailTaken(db, snap.workspaceId, snap.email) then Some(Conflict)
    else if !AllUnowned(db.projects, snap.projectIds, snap.workspaceId) then Some(Conflict)
    else if !AllUnowned(db.documents, snap.documentIds, snap.workspaceId) then Some(Conflict)
    else None
  }

  function RestoredRow(snap: Snapshot, tx: nat): Member {
    Member(snap.workspaceId, snap.name, snap.email, snap.role, FromMillis(snap.createdAtMs), tx)
  }

  /** `INSERT ... ON CONFLICT DO NOTHING`: any unique index in the way makes it insert nothing. */
  function InsertMember(db: Db, snap: Snapshot): Result<Db, Failure> {
    if snap.memberId in db.members || EmailTaken(db, snap.workspaceId, snap.email) then Err(Conflict)
    else if snap.workspaceId !in db.workspaces then Err(ForeignKeyViolation)
    else Ok(db.(members := db.members[snap.memberId := RestoredRow(snap, db.nextTx)]))
  }

  /** The undo handler; any failure rolls the transaction back. */
  function Undo(db: Db, snap: Snapshot): Result<Db, Failure> {
    match InsertMember(db, snap)
    case Err(e) => Err(e)
    case Ok(inserted) =>
      var ws, m, tx := snap.workspaceId, snap.memberId, db.nextTx;
      if |Matching(inserted.projects, snap.projectIds, ws, None)| != |snap.projectIds| then Err(Conflict)
      else
        var projects := SetOwners(inserted.projects, snap.projectIds, ws, None, Some(m), tx);
        if |Matching(inserted.documents, snap.documentIds, ws, None)| != |snap.documentIds| then
          Err(Conflict)
        else
          var documents := SetOwners(inserted.documents, snap.documentIds, ws, None, Some(m), tx);
          Ok(inserted.(projects := projects, documents := documents, nextTx := tx + 1))
  }

  /** The lists in a snapshot are query results: no id twice. */
  ghost predicate DistinctLists(snap: Snapshot) {
    && (forall i, j :: 0 <= i < j < |snap.projectIds| ==> snap.projectIds[i] != snap.projectIds[j])
    && (forall i, j :: 0 <= i < j < |snap.documentIds| ==> snap.documentIds[i] != snap.documentIds[j])
  }

  /**
   An undo violates a foreign key exactly when nothing is in the way of the row but its workspace is
   gone; every other refusal is a conflict.
   */
  lemma UndoAnswers(db: Db, snap: Snapshot)
    ensures Undo(db, snap).Err? ==>
      Undo(db, snap).error ==
        if snap.memberId !in db.members && snap.workspaceId !in db.workspaces
           && !(exists m | m in db.members ::
                  db.members[m].workspaceId == snap.workspaceId && db.members[m].email == snap.email)
        then ForeignKeyViolation else Conflict
  {
  }

  /** What `checkConflicts` looks at, each a conflict: the row, the workspace, the email, the listed links. */
  lemma CheckAnswers(db: Db, snap: Snapshot)
    ensures CheckConflicts(db, snap).None? <==>
      && !(snap.memberId in db.members && db.members[snap.memberId].workspaceId == snap.workspaceId)
      && snap.workspaceId in db.workspaces
      && (forall m | m in db.members && db.members[m].workspaceId == snap.workspaceId :: db.members[m].email != snap.email)
      && AllOwned(db.projects, snap.projectIds, snap.workspaceId, None)
      && AllOwned(db.documents, snap.documentIds, snap.workspaceId, None)
    ensures CheckConflicts(db, snap) in {None, Some(Conflict)}
  {
  }

  // ---------------------------------------------------------------- every statement keeps the schema

  lemma DeleteKeepsConstraints(db: Db, snap: Snapshot)
    requires Constrained(db) && DeleteMember(db, snap).Ok?
    ensures Constrained(DeleteMember(db, snap).value)
  {
    var after := DeleteMember(db, snap).value;
    var m := snap.memberId;
    ClearKeepsOwners(db.projects, db.members, snap.projectIds, snap.workspaceId, m, db.nextTx);
    ClearKeepsOwners(db.documents, db.members, snap.documentIds, snap.workspaceId, m, db.nextTx);
    forall i | i in after.projects ensures after.projects[i].owner != Some(m) {
      assert i !in OwnedBy(after.projects, m);
    }
    forall i | i in after.documents ensures after.documents[i].owner != Some(m) {
      assert i !in OwnedBy(after.documents, m);
    }
  }

  lemma InsertKeepsConstraints(db: Db, snap: Snapshot)
    requires Constrained(db) && InsertMember(db, snap).Ok?
    ensures Constrained(InsertMember(db, snap).value)
  {
  }

  lemma UndoKeepsConstraints(db: Db, snap: Snapshot)
    requires Constrained(db) && Undo(db, snap).Ok?
    ensures Constrained(Undo(db, snap).value)
  {
    InsertKeepsConstraints(db, snap);
    var inserted := InsertMember(db, snap).value;
    RestoreKeepsOwners(db.projects, inserted.members, snap.projectIds, snap.workspaceId,
                       snap.memberId, db.nextTx);
    RestoreKeepsOwners(db.documents, inserted.members, snap.documentIds, snap.workspaceId,
                       snap.memberId, db.nextTx);
  }

  // ---------------------------------------------------------------- guard agreement

  /**
   Undo succeeds exactly when the conflict check passes in the same state and the member id is
   free in every workspace, not only in its own.
   */
  lemma UndoSucceedsIff(db: Db, snap: Snapshot)
    requires DistinctLists(snap)
    ensures Undo(db, snap).Ok?
      <==> CheckConflicts(db, snap).None? && snap.memberId !in db.members
  {
    CountIsLength(db.projects, snap.projectIds, snap.workspaceId, None);
    CountIsLength(db.documents, snap.documentIds, snap.workspaceId, None);
  }

  // ---------------------------------------------------------------- round trip

  /** What undo writes, whatever happened between execute and undo. */
  ghost predicate Restores(before: Db, after: Db, snap: Snapshot) {
    && after.workspaces == before.workspaces
    && snap.memberId !in before.members
    && after.members == before.members[snap.memberId :=
         Member(snap.workspaceId, snap.name, snap.email, snap.role, snap.createdAtMs * 1000, before.nextTx)]
    && RelinksExactly(before.projects, after.projects, snap.projectIds, snap, before.nextTx)
    && RelinksExactly(before.documents, after.documents, snap.documentIds, snap, before.nextTx)
  }

  /** Listed rows were unowned and now belong to the member; every other row is as it was. */
  ghost predicate RelinksExactly<T>(before: map<Text, Item<T>>, after: map<Text, Item<T>>,
                                    ids: seq<Text>, snap: Snapshot, tx: nat) {
    && after.Keys == before.Keys
    && (forall x | x in ids ::
         && x in before && before[x].owner == None && before[x].workspaceId == snap.workspaceId
         && after[x] == before[x].(owner := Some(snap.memberId), revision := tx))
    && (forall x | x in before && x !in ids :: after[x] == before[x])
  }

  /** Under any interference, a successful undo restores the row and exactly the listed links. */
  lemma UndoRestoresExactly(db: Db, snap: Snapshot)
    requires DistinctLists(snap) && Undo(db, snap).Ok?
    ensures Restores(db, Undo(db, snap).value, snap)
  {
    CountIsLength(db.projects, snap.projectIds, snap.workspaceId, None);
    CountIsLength(db.documents, snap.documentIds, snap.workspaceId, None);
    RelinkExact(db.projects, snap.projectIds, snap, db.nextTx);
    RelinkExact(db.documents, snap.documentIds, snap, db.nextTx);
  }

  lemma RelinkExact<T>(items: map<Text, Item<T>>, ids: seq<Text>, snap: Snapshot, tx: nat)
    requires AllUnowned(items, ids, snap.workspaceId)
    ensures RelinksExactly(
      items, SetOwners(items, ids, snap.workspaceId, None, Some(snap.memberId), tx), ids, snap, tx)
  {
  }

  /** The snapshot's columns are those of the member row, which may be removed. */
  ghost predicate RowReadFrom(db: Db, snap: Snapshot) {
    && ReadMember(db, snap.workspaceId, snap.memberId).Ok?
    && snap == TakeSnapshot(snap.memberId, db.members[snap.memberId], snap.projectIds, snap.documentIds)
  }

  /** The snapshot's lists are what the member owns in its workspace: projects in one state, documents in another. */
  ghost predicate LinksReadFrom(p: Db, d: Db, snap: Snapshot) {
    && Lists(snap.projectIds, OwnedIn(p.projects, snap.workspaceId, snap.memberId))
    && Lists(snap.documentIds, OwnedIn(d.documents, snap.workspaceId, snap.memberId))
  }

  /** A snapshot read from a state whose member may be removed. */
  ghost predicate ReadFrom(db: Db, snap: Snapshot) {
    RowReadFrom(db, snap) && LinksReadFrom(db, db, snap)
  }

  /** Removing right after reading always succeeds and clears every link to the member. */
  lemma RemoveSucceeds(db: Db, snap: Snapshot)
    requires Constrained(db) && ReadFrom(db, snap)
    ensures DeleteMember(db, snap).Ok?
    ensures var after := DeleteMember(db, snap).value;
      && after.members == db.members - {snap.memberId}
      && OwnedBy(after.projects, snap.memberId) == {}
      && OwnedBy(after.documents, snap.memberId) == {}
  {
    var ws, m := snap.workspaceId, snap.memberId;
    CountIsLength(db.projects, snap.projectIds, ws, Some(m));
    CountIsLength(db.documents, snap.documentIds, ws, Some(m));
    ClearedAll(db.projects, db.members, snap.projectIds, ws, m, db.nextTx);
    ClearedAll(db.documents, db.members, snap.documentIds, ws, m, db.nextTx);
  }

  lemma ClearedAll<T>(items: map<Text, Item<T>>, members: map<Text, Member>, ids: seq<Text>,
                      ws: Text, m: Text, tx: nat)
    requires OwnersExist(items, members) && m in members && members[m].workspaceId == ws
    requires Lists(ids, OwnedIn(items, ws, m))
    ensures forall x | x in ids :: x in items && items[x].workspaceId == ws && items[x].owner == Some(m)
    ensures OwnedBy(SetOwners(items, ids, ws, Some(m), None, tx), m) == {}
  {
    var after := SetOwners(items, ids, ws, Some(m), None, tx);
    forall x | x in items ensures after[x].owner != Some(m) {
      if items[x].owner == Some(m) {
        assert x in OwnedIn(items, ws, m);
        assert x in Matching(items, ids, ws, Some(m));
      }
    }
    forall x | x in ids ensures x in items && items[x].workspaceId == ws && items[x].owner == Some(m) {
      assert x in OwnedIn(items, ws, m);
    }
  }

  /**
   The check looks for the member id only in its own workspace, so alone it is not enough: a member
   is read and removed, another workspace takes the id, the check passes and the undo conflicts.
   */
  lemma CheckMissesOtherWorkspace() returns (db: Db, snap: Snapshot, w: Write)
    ensures Constrained(db) && RevisionsOld(db) && ReadFrom(db, snap) && DeleteMember(db, snap).Ok?
    ensures var between := ApplyWrites(DeleteMember(db, snap).value, [w]);
      && Constrained(between) && RevisionsOld(between)
      && CheckConflicts(between, snap).None? && Undo(between, snap) == Err(Conflict)
  {
    var home, other, id := [1], [2], [3];
    var member := Member(home, [], [], Viewer, 0, 0);
    db := Db({home, other}, map[id := member], map[], map[], 1);
    snap := TakeSnapshot(id, member, [], []);
    w := PutMember(id, member.(workspaceId := other));
    RemoveSucceeds(db, snap);
    DeleteKeepsConstraints(db, snap);
    var removed := DeleteMember(db, snap).value;
    assert removed == Db(db.workspaces, map[], map[], map[], 2) by {
      assert removed.members == map[] && removed.projects == map[] && removed.documents == map[];
    }
    OneWrite(removed, w);
    TakenElsewhere(removed, snap, w);
  }

  lemma OneWrite(db: Db, w: Write)
    ensures ApplyWrites(db, [w]) == ApplyWrite(db, w)
  {
    assert [w][1..] == [];
  }

  /** In an empty database with both workspaces, the id taken in the other one. */
  lemma TakenElsewhere(removed: Db, snap: Snapshot, w: Write)
    requires removed == Db({snap.workspaceId, [2]}, map[], map[], map[], 2) && snap.workspaceId == [1]
    requires snap.projectIds == [] && snap.documentIds == []
    requires w.PutMember? && w.id == snap.memberId && w.member.workspaceId == [2]
    ensures var between := ApplyWrite(removed, w);
      && Constrained(between) && RevisionsOld(between)
      && CheckConflicts(between, snap).None? && Undo(between, snap) == Err(Conflict)
  {
  }

  /**
   A removal that succeeds after other writers ran deleted the row that was read and cleared
   exactly the links that existed: an unlisted link makes the database reject the delete.
   */
  lemma RemovalClearsExactlyListed(db: Db, snap: Snapshot)
    requires Constrained(db) && DistinctLists(snap) && DeleteMember(db, snap).Ok?
    ensures RowMatches(db, snap)
    ensures Lists(snap.projectIds, OwnedBy(db.projects, snap.memberId))
    ensures Lists(snap.documentIds, OwnedBy(db.documents, snap.memberId))
  {
    var ws, m := snap.workspaceId, snap.memberId;
    CountIsLength(db.projects, snap.projectIds, ws, Some(m));
    CountIsLength(db.documents, snap.documentIds, ws, Some(m));
    ListedExactly(db.projects, snap.projectIds, ws, m, db.nextTx);
    ListedExactly(db.documents, snap.documentIds, ws, m, db.nextTx);
  }

  lemma ListedExactly<T>(items: map<Text, Item<T>>, ids: seq<Text>, ws: Text, m: Text, tx: nat)
    requires forall x | x in ids :: x in items && items[x].workspaceId == ws && items[x].owner == Some(m)
    requires OwnedBy(SetOwners(items, ids, ws, Some(m), None, tx), m) == {}
    ensures forall x :: x in ids <==> x in OwnedBy(items, m)
  {
    var after := SetOwners(items, ids, ws, Some(m), None, tx);
    forall x | x in OwnedBy(items, m) ensures x in ids {
      assert x in after && x !in OwnedBy(after, m);
    }
  }

  /** A row without its revision. */
  function Unversioned<T>(items: map<Text, Item<T>>): map<Text, Item<T>> {
    map i | i in items :: items[i].(revision := 0)
  }

  /** A stored time cut to its last whole millisecond: what survives being kept as a JavaScript date. */
  function Cut(micros: int): int {
    micros - micros % 1000
  }

  /** The product tables without revisions, the member's creation time cut to whole milliseconds. */
  function Visible(db: Db, memberId: Text): Db {
    Db(db.workspaces,
       map m | m in db.members ::
         if m == memberId
         then db.members[m].(revision := 0, createdAt := Cut(db.members[m].createdAt))
         else db.members[m].(revision := 0),
       Unversioned(db.projects), Unversioned(db.documents), 0)
  }

  /** Right after a removal the conflict check passes and the undo succeeds. */
  lemma RemovalCanBeUndone(db: Db, snap: Snapshot)
    requires Constrained(db) && ReadFrom(db, snap)
    ensures DeleteMember(db, snap).Ok?
    ensures CheckConflicts(DeleteMember(db, snap).value, snap).None?
    ensures Undo(DeleteMember(db, snap).value, snap).Ok?
  {
    var ws, m := snap.workspaceId, snap.memberId;
    RemoveSucceeds(db, snap);
    var removed := DeleteMember(db, snap).value;
    ClearedAll(db.projects, db.members, snap.projectIds, ws, m, db.nextTx);
    ClearedAll(db.documents, db.members, snap.documentIds, ws, m, db.nextTx);
    EmailFreed(db, m);
    assert AllUnowned(removed.projects, snap.projectIds, ws);
    assert AllUnowned(removed.documents, snap.documentIds, ws);
    UndoSucceedsIff(removed, snap);
  }

  /** With nothing in between, the tables end equal to the originals but for revisions. */
  lemma RemoveThenUndo(db: Db, snap: Snapshot)
    requires Constrained(db) && ReadFrom(db, snap)
    requires DeleteMember(db, snap).Ok? && Undo(DeleteMember(db, snap).value, snap).Ok?
    ensures Visible(Undo(DeleteMember(db, snap).value, snap).value, snap.memberId)
         == Visible(db, snap.memberId)
  {
    var ws, m := snap.workspaceId, snap.memberId;
    var removed := DeleteMember(db, snap).value;
    var restored := Undo(removed, snap).value;
    ClearedAll(db.projects, db.members, snap.projectIds, ws, m, db.nextTx);
    ClearedAll(db.documents, db.members, snap.documentIds, ws, m, db.nextTx);
    RelinkedAsBefore(db.projects, snap.projectIds, ws, m, db.nextTx, removed.nextTx);
    RelinkedAsBefore(db.documents, snap.documentIds, ws, m, db.nextTx, removed.nextTx);
    SameMembersAgain(db, snap, removed.nextTx);
  }

  lemma SameMembersAgain(db: Db, snap: Snapshot, tx: nat)
    requires ReadFrom(db, snap)
    ensures var members := (db.members - {snap.memberId})[snap.memberId := RestoredRow(snap, tx)];
      Visible(db.(members := members), snap.memberId).members == Visible(db, snap.memberId).members
  {
  }

  lemma EmailFreed(db: Db, m: Text)
    requires EmailsUnique(db.members) && m in db.members
    ensures !EmailTaken(db.(members := db.members - {m}), db.members[m].workspaceId, db.members[m].email)
  {
  }

  lemma RelinkedAsBefore<T>(items: map<Text, Item<T>>, ids: seq<Text>, ws: Text, m: Text,
                            tx: nat, tx': nat)
    requires forall x | x in ids :: x in items && items[x].workspaceId == ws && items[x].owner == Some(m)
    ensures var cleared := SetOwners(items, ids, ws, Some(m), None, tx);
      Unversioned(SetOwners(cleared, ids, ws, None, Some(m), tx')) == Unversioned(items)
  {
  }

  /** A row that is still as it was read was not written at all. */
  lemma RowUnwritten(db: Db, writes: seq<Write>, snap: Snapshot)
    requires RevisionsOld(db) && RowReadFrom(db, snap) && RowMatches(ApplyWrites(db, writes), snap)
    ensures var m, before := snap.memberId, ApplyWrites(db, writes);
      m in before.members && before.members[m] == db.members[m]
  {
    MemberAfterWrites(db, writes, snap.memberId, db.nextTx);
  }

  /**
   The whole life of a removal among other writers. The member row is read in `db`; others write
   `w1`, and after `p` and after `d` of these writes the owned projects and documents are read; the
   removal commits; others write `w2`; the undo commits. Then the row deleted was the row read, and
   undo put that row back to the millisecond together with exactly the links the removal had
   cleared, leaving every other row alone.
   */
  lemma RoundTripAmongWriters(db: Db, w1: seq<Write>, p: nat, d: nat, w2: seq<Write>, snap: Snapshot)
    requires p <= |w1| && d <= |w1| && RevisionsOld(db) && RowReadFrom(db, snap)
    requires LinksReadFrom(ApplyWrites(db, w1[..p]), ApplyWrites(db, w1[..d]), snap)
    requires Constrained(ApplyWrites(db, w1)) && DeleteMember(ApplyWrites(db, w1), snap).Ok?
    requires Undo(ApplyWrites(DeleteMember(ApplyWrites(db, w1), snap).value, w2), snap).Ok?
    ensures var m, before := snap.memberId, ApplyWrites(db, w1);
      var between := ApplyWrites(DeleteMember(before, snap).value, w2);
      var after := Undo(between, snap).value;
      && m in before.members && before.members[m] == db.members[m]
      && db.members[m].role != Owner
      && after.members[m] == db.members[m].(
           createdAt := db.members[m].createdAt - db.members[m].createdAt % 1000, revision := between.nextTx)
      && Lists(snap.projectIds, OwnedBy(before.projects, m))
      && Lists(snap.documentIds, OwnedBy(before.documents, m))
      && Restores(between, after, snap)
      && (Constrained(between) ==> Constrained(after))
  {
    hide Constrained, DeleteMember, Undo, ApplyWrites, Restores, RowMatches;
    var before := ApplyWrites(db, w1);
    var between := ApplyWrites(DeleteMember(before, snap).value, w2);
    RemovalClearsExactlyListed(before, snap);
    RowUnwritten(db, w1, snap);
    UndoRestoresExactly(between, snap);
    RestoredRowIs(between, Undo(between, snap).value, snap);
    if Constrained(between) {
      UndoKeepsConstraints(between, snap);
    }
  }

  lemma RestoredRowIs(between: Db, after: Db, snap: Snapshot)
    requires Restores(between, after, snap)
    ensures snap.memberId in after.members
    ensures after.members[snap.memberId] ==
      Member(snap.workspaceId, snap.name, snap.email, snap.role, snap.createdAtMs * 1000, between.nextTx)
  {
  }
}
