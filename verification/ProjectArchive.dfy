/** `project.archive` and `member.change_role`: compare-and-set updates and their undo. */
module ProjectArchive {
  import opened Prelude
  import opened JsonText
  import opened DemoState
  import opened MemberRemove

  datatype ArchiveSnapshot = ArchiveSnapshot(
    workspaceId: Text, projectId: Text, status: ProjectStatus,
    archivedAtMs: Option<int>, updatedAtMs: int, revision: nat)

  function MillisOrNull(t: Option<int>): Option<int> {
    if t.Some? then Some(ToMillis(t.value)) else None
  }

  function MicrosOrNull(t: Option<int>): Option<int> {
    if t.Some? then Some(FromMillis(t.value)) else None
  }

  function FindProject(db: Db, workspaceId: Text, id: Text): Option<Item<ProjectBody>> {
    if id in db.projects && db.projects[id].workspaceId == workspaceId
    then Some(db.projects[id]) else None
  }

  /** What execute reads and saves before archiving. */
  function ReadForArchive(db: Db, workspaceId: Text, id: Text): Result<ArchiveSnapshot, Failure> {
    match FindProject(db, workspaceId, id)
    case None => Err(NotFound)
    case Some(p) =>
      if p.body.status == Archived then Err(Conflict)
      else Ok(ArchiveSnapshot(p.workspaceId, id, p.body.status, MillisOrNull(p.body.archivedAt),
                              ToMillis(p.body.updatedAt), p.revision))
  }

  /** `archiveDemoProject`: the archived row's revision is the one undo will expect. */
  function Archive(db: Db, workspaceId: Text, id: Text, expected: nat, now: int): Result<Db, Failure> {
    match FindProject(db, workspaceId, id)
    case None => Err(Conflict)
    case Some(p) =>
      if p.body.status != Active || p.revision != expected then Err(Conflict)
      else
        var body := p.body.(status := Archived, archivedAt := Some(now), updatedAt := now);
        Ok(db.(projects := db.projects[id := p.(body := body, revision := db.nextTx)],
               nextTx := db.nextTx + 1))
  }

  /**
   Archiving refuses exactly a project that is not in the workspace, not active, or written since the
   expected revision; otherwise the row becomes archived at that time, and nothing else changes.
   */
  lemma ArchiveAnswers(db: Db, workspaceId: Text, id: Text, expected: nat, now: int)
    ensures var r := Archive(db, workspaceId, id, expected, now);
      if id in db.projects && db.projects[id].workspaceId == workspaceId && db.projects[id].body.status == Active
         && db.projects[id].revision == expected
      then
        && r.Ok? && id in r.value.projects
        && var body := r.value.projects[id].body;
           && body.status == Archived && body.archivedAt == Some(now) && body.updatedAt == now
           && body.name == db.projects[id].body.name
           && r.value == db.(nextTx := db.nextTx + 1, projects := db.projects[id :=
                db.projects[id].(revision := db.nextTx, body := body)])
      else r == Err(Conflict)
  {
  }

  /** What the read answers: a missing project, one already archived, or the row with its times in milliseconds. */
  lemma ReadAnswers(db: Db, workspaceId: Text, id: Text)
    ensures var r := ReadForArchive(db, workspaceId, id);
      if id !in db.projects || db.projects[id].workspaceId != workspaceId then r == Err(NotFound)
      else
        var p := db.projects[id];
        if p.body.status == Archived then r == Err(Conflict)
        else
          && r.Ok? && r.value.workspaceId == workspaceId && r.value.projectId == id
          && r.value.status == p.body.status && r.value.revision == p.revision
          && 0 <= p.body.updatedAt - 1000 * r.value.updatedAtMs < 1000
          && r.value.archivedAtMs.Some? == p.body.archivedAt.Some?
          && (p.body.archivedAt.Some? ==> 0 <= p.body.archivedAt.value - 1000 * r.value.archivedAtMs.value < 1000)
  {
  }

  /** `checkConflicts` of the archive action. */
  function CheckArchive(db: Db, snap: ArchiveSnapshot): Option<Failure> {
    match FindProject(db, snap.workspaceId, snap.projectId)
    case None => Some(Conflict)
    case Some(p) => if p.body.status != Archived then Some(Conflict) else None
  }

  /** The check passes exactly for a project of the workspace that is archived; anything else is a conflict. */
  lemma ArchiveCheckAnswers(db: Db, snap: ArchiveSnapshot)
    ensures CheckArchive(db, snap) ==
      if snap.projectId in db.projects && db.projects[snap.projectId].workspaceId == snap.workspaceId
         && db.projects[snap.projectId].body.status == Archived
      then None else Some(Conflict)
  {
  }

  /** `restoreDemoProject` with the revision recorded when archiving. */
  function Restore(db: Db, snap: ArchiveSnapshot, expected: nat): Result<Db, Failure> {
    match FindProject(db, snap.workspaceId, snap.projectId)
    case None => Err(Conflict)
    case Some(p) =>
      if p.body.status != Archived || p.revision != expected then Err(Conflict)
      else
        var body := p.body.(status := snap.status, archivedAt := MicrosOrNull(snap.archivedAtMs),
                            updatedAt := FromMillis(snap.updatedAtMs));
        Ok(db.(projects := db.projects[snap.projectId := p.(body := body, revision := db.nextTx)],
               nextTx := db.nextTx + 1))
  }

  /**
   Restoring refuses exactly a project that is not in the workspace, not archived, or written since the
   archive; otherwise status and times are the snapshot's again, and nothing else changes.
   */
  lemma RestoreAnswers(db: Db, snap: ArchiveSnapshot, expected: nat)
    ensures var id, r := snap.projectId, Restore(db, snap, expected);
      if id in db.projects && db.projects[id].workspaceId == snap.workspaceId
         && db.projects[id].body.status == Archived && db.projects[id].revision == expected
      then
        && r.Ok? && id in r.value.projects
        && var body := r.value.projects[id].body;
           && body.status == snap.status && body.updatedAt == snap.updatedAtMs * 1000
           && body.archivedAt == (if snap.archivedAtMs.None? then None else Some(snap.archivedAtMs.value * 1000))
           && body.name == db.projects[id].body.name
           && r.value == db.(nextTx := db.nextTx + 1, projects := db.projects[id :=
                db.projects[id].(revision := db.nextTx, body := body)])
      else r == Err(Conflict)
  {
  }

  /** The row with its times cut to whole milliseconds, and nothing else changed. */
  predicate InMillis(before: Item<ProjectBody>, after: Item<ProjectBody>) {
    && after == before.(revision := after.revision,
                        body := before.body.(archivedAt := after.body.archivedAt, updatedAt := after.body.updatedAt))
    && after.body.updatedAt == before.body.updatedAt - before.body.updatedAt % 1000
    && match before.body.archivedAt
       case None => after.body.archivedAt.None?
       case Some(t) => after.body.archivedAt == Some(t - t % 1000)
  }

  /**
   Archiving after other writers ran succeeds exactly when none of them wrote the row since it
   was read, so the row archived is the row that was read.
   */
  lemma ArchiveSeesReadRow(db: Db, w1: seq<Write>, workspaceId: Text, id: Text, now: int)
    requires RevisionsOld(db) && ReadForArchive(db, workspaceId, id).Ok?
    ensures var snap := ReadForArchive(db, workspaceId, id).value;
      Archive(ApplyWrites(db, w1), workspaceId, id, snap.revision, now).Ok?
      <==> forall w | w in w1 :: !TouchesProject(w, id)
  {
    ProjectAfterWrites(db, w1, id, db.nextTx);
  }

  /** Undo succeeds exactly when no other transaction has written the row since the archive. */
  lemma RestoreIffUntouched(db: Db, w2: seq<Write>, snap: ArchiveSnapshot, now: int)
    requires RevisionsOld(db)
    requires Archive(db, snap.workspaceId, snap.projectId, snap.revision, now).Ok?
    ensures var archived := Archive(db, snap.workspaceId, snap.projectId, snap.revision, now).value;
      Restore(ApplyWrites(archived, w2), snap, archived.projects[snap.projectId].revision).Ok?
      <==> forall w | w in w2 :: !TouchesProject(w, snap.projectId)
  {
    var archived := Archive(db, snap.workspaceId, snap.projectId, snap.revision, now).value;
    ProjectAfterWrites(archived, w2, snap.projectId, archived.nextTx);
  }

  /**
   Lost-update freedom over the whole action: whenever archive and undo both commit among other
   writers, nobody wrote the row in between, and undo leaves the row as it was read, to the
   millisecond, and every other row as it found it.
   */
  lemma ArchiveRoundTrip(db: Db, w1: seq<Write>, w2: seq<Write>, workspaceId: Text, id: Text, now: int)
    requires RevisionsOld(db) && RevisionsOld(ApplyWrites(db, w1))
    requires ReadForArchive(db, workspaceId, id).Ok?
    requires Archive(ApplyWrites(db, w1), workspaceId, id,
                     ReadForArchive(db, workspaceId, id).value.revision, now).Ok?
    requires var snap := ReadForArchive(db, workspaceId, id).value;
      var archived := Archive(ApplyWrites(db, w1), workspaceId, id, snap.revision, now).value;
      Restore(ApplyWrites(archived, w2), snap, archived.projects[id].revision).Ok?
    ensures var snap := ReadForArchive(db, workspaceId, id).value;
      var archived := Archive(ApplyWrites(db, w1), workspaceId, id, snap.revision, now).value;
      var between := ApplyWrites(archived, w2);
      var after := Restore(between, snap, archived.projects[id].revision).value;
      && (forall w | w in w1 + w2 :: !TouchesProject(w, id))
      && CheckArchive(between, snap).None?
      && id in after.projects && InMillis(db.projects[id], after.projects[id])
      && after.projects[id].revision == between.nextTx
      && after == between.(
           nextTx := between.nextTx + 1, projects := between.projects[id := after.projects[id]])
  {
    var snap := ReadForArchive(db, workspaceId, id).value;
    var before := ApplyWrites(db, w1);
    ArchiveSeesReadRow(db, w1, workspaceId, id, now);
    ProjectAfterWrites(db, w1, id, db.nextTx);
    RestoreIffUntouched(before, w2, snap, now);
    var archived := Archive(before, workspaceId, id, snap.revision, now).value;
    ProjectAfterWrites(archived, w2, id, archived.nextTx);
  }

  /** The check alone admits states the undo then refuses: it looks at the status, not the revision. */
  lemma CheckMissesRewrite() returns (db: Db, snap: ArchiveSnapshot, w: Write)
    ensures Constrained(db) && RevisionsOld(db)
    ensures Archive(db, snap.workspaceId, snap.projectId, snap.revision, 5000).Ok?
    ensures var archived := Archive(db, snap.workspaceId, snap.projectId, snap.revision, 5000).value;
      && CheckArchive(ApplyWrites(archived, [w]), snap).None?
      && Restore(ApplyWrites(archived, [w]), snap, archived.projects[snap.projectId].revision) == Err(Conflict)
  {
    var ws, id := [1], [2];
    var row := Item(ws, None, 0, ProjectBody([], Active, None, 0));
    db := Db({ws}, map[], map[id := row], map[], 1);
    snap := ArchiveSnapshot(ws, id, Active, None, 0, 0);
    w := PutProject(id, row.(body := row.body.(status := Archived)));
    var archived := Archive(db, ws, id, 0, 5000).value;
    assert ApplyWrites(archived, [w]) == ApplyWrite(archived, w) by {
      assert [w][1..] == [];
    }
  }

  // ---------------------------------------------------------------- member.change_role

  datatype RoleSnapshot = RoleSnapshot(
    memberId: Text, workspaceId: Text, previousRole: Role, changedToRole: Role)

  /** `changeDemoMemberRole`: the expected role is the only guard. */
  function ChangeRole(db: Db, workspaceId: Text, id: Text, expected: Role, role: Role): Result<Db, Failure> {
    match FindMember(db, workspaceId, id)
    case None => Err(Conflict)
    case Some(m) =>
      if m.role != expected then Err(Conflict)
      else Ok(db.(members := db.members[id := m.(role := role, revision := db.nextTx)],
                  nextTx := db.nextTx + 1))
  }

  function ReadForRole(db: Db, workspaceId: Text, id: Text, role: Role): Result<RoleSnapshot, Failure> {
    match FindMember(db, workspaceId, id)
    case None => Err(NotFound)
    case Some(m) =>
      if m.role == Owner || m.role == role then Err(Conflict)
      else Ok(RoleSnapshot(id, m.workspaceId, m.role, role))
  }

  function CheckRole(db: Db, snap: RoleSnapshot): Option<Failure> {
    match FindMember(db, snap.workspaceId, snap.memberId)
    case None => Some(NotFound)
    case Some(m) => if m.role != snap.changedToRole then Some(Conflict) else None
  }

  function UndoRole(db: Db, snap: RoleSnapshot): Result<Db, Failure> {
    ChangeRole(db, snap.workspaceId, snap.memberId, snap.changedToRole, snap.previousRole)
  }

  /** Changing a role refuses exactly a member that is not in the workspace or has another role than expected. */
  lemma RoleAnswers(db: Db, workspaceId: Text, id: Text, expected: Role, role: Role)
    ensures ChangeRole(db, workspaceId, id, expected, role) ==
      if id in db.members && db.members[id].workspaceId == workspaceId && db.members[id].role == expected
      then Ok(db.(nextTx := db.nextTx + 1,
                  members := db.members[id := db.members[id].(role := role, revision := db.nextTx)]))
      else Err(Conflict)
  {
  }

  /** What the read before a role change answers. */
  lemma RoleReadAnswers(db: Db, workspaceId: Text, id: Text, role: Role)
    ensures ReadForRole(db, workspaceId, id, role) ==
      if id !in db.members || db.members[id].workspaceId != workspaceId then Err(NotFound)
      else if db.members[id].role == Owner || db.members[id].role == role then Err(Conflict)
      else Ok(RoleSnapshot(id, workspaceId, db.members[id].role, role))
  {
  }

  /** What the check before the undo of a role change objects to: no such member, or a role changed since. */
  lemma RoleCheckAnswers(db: Db, snap: RoleSnapshot)
    ensures CheckRole(db, snap) ==
      if snap.memberId !in db.members || db.members[snap.memberId].workspaceId != snap.workspaceId then Some(NotFound)
      else if db.members[snap.memberId].role != snap.changedToRole then Some(Conflict)
      else None
  {
  }

  /** For roles the check is exact: it passes just when the undo in the same state succeeds. */
  lemma RoleCheckIsExact(db: Db, snap: RoleSnapshot)
    ensures CheckRole(db, snap).None? <==> UndoRole(db, snap).Ok?
  {
  }

  /**
   Change, other writers, undo: when both commit, the row the undo found has only its role moved
   back to the one that was read, and nothing else in the tables changes.
   */
  lemma RoleRoundTrip(db: Db, w1: seq<Write>, w2: seq<Write>, workspaceId: Text, id: Text, role: Role)
    requires ReadForRole(db, workspaceId, id, role).Ok?
    requires var snap := ReadForRole(db, workspaceId, id, role).value;
      ChangeRole(ApplyWrites(db, w1), workspaceId, id, snap.previousRole, role).Ok?
    requires var snap := ReadForRole(db, workspaceId, id, role).value;
      UndoRole(ApplyWrites(ChangeRole(ApplyWrites(db, w1), workspaceId, id, snap.previousRole, role).value,
                           w2), snap).Ok?
    ensures var snap := ReadForRole(db, workspaceId, id, role).value;
      var changed := ChangeRole(ApplyWrites(db, w1), workspaceId, id, snap.previousRole, role).value;
      var between := ApplyWrites(changed, w2);
      var after := UndoRole(between, snap).value;
      && db.members[id].role != Owner && db.members[id].role != role
      && id in between.members && between.members[id].role == role
      && after == between.(
           nextTx := between.nextTx + 1,
           members := between.members[id := between.members[id].(
             role := db.members[id].role, revision := between.nextTx)])
      && (Constrained(between) ==> Constrained(after))
  {
    var snap := ReadForRole(db, workspaceId, id, role).value;
    var changed := ChangeRole(ApplyWrites(db, w1), workspaceId, id, snap.previousRole, role).value;
    RoleKeepsConstraints(ApplyWrites(changed, w2), snap);
  }

  lemma RoleKeepsConstraints(db: Db, snap: RoleSnapshot)
    requires UndoRole(db, snap).Ok?
    ensures Constrained(db) ==> Constrained(UndoRole(db, snap).value)
  {
  }
}
