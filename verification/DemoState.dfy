/**
 The relational state of the demo application and the SQL statements its repositories issue.
 A revision is the id of the transaction that last wrote a row (`xmin`); `nextTx` is the id the
 next writing transaction gets. Stored times are microseconds.
 */
module DemoState {
  import opened Prelude
  import opened JsonText

  datatype Role = Owner | Admin | Viewer
  datatype ProjectStatus = Active | Archived

  datatype Member = Member(
    workspaceId: Text, name: Text, email: Text, role: Role, createdAt: int, revision: nat)

  /** A row with a workspace and an optional owner; `body` holds the other columns. */
  datatype Item<+T> = Item(workspaceId: Text, owner: Option<Text>, revision: nat, body: T)

  datatype ProjectBody = ProjectBody(
    name: Text, status: ProjectStatus, archivedAt: Option<int>, updatedAt: int)
  datatype DocumentBody = DocumentBody(title: Text, projectId: Option<Text>, updatedAt: int)

  type Projects = map<Text, Item<ProjectBody>>
  type Documents = map<Text, Item<DocumentBody>>

  datatype Db = Db(
    workspaces: set<Text>,
    members: map<Text, Member>,
    projects: Projects,
    documents: Documents,
    nextTx: nat)

  // ---------------------------------------------------------------- constraints

  /** The composite foreign key on `(workspace_id, owner_member_id)`; a null owner passes. */
  ghost predicate OwnersExist<T>(items: map<Text, Item<T>>, members: map<Text, Member>) {
    forall i :: i in items && items[i].owner.Some? ==>
      && items[i].owner.value in members
      && members[items[i].owner.value].workspaceId == items[i].workspaceId
  }

  ghost predicate EmailsUnique(members: map<Text, Member>) {
    forall a, b :: a in members && b in members && a != b ==>
      members[a].workspaceId == members[b].workspaceId ==> members[a].email != members[b].email
  }

  ghost predicate WorkspacesExist(db: Db) {
    && (forall m :: m in db.members ==> db.members[m].workspaceId in db.workspaces)
    && (forall p :: p in db.projects ==> db.projects[p].workspaceId in db.workspaces)
    && (forall d :: d in db.documents ==> db.documents[d].workspaceId in db.workspaces)
  }

  ghost predicate ProjectsExist(db: Db) {
    forall d :: d in db.documents && db.documents[d].body.projectId.Some? ==>
      && db.documents[d].body.projectId.value in db.projects
      && db.projects[db.documents[d].body.projectId.value].workspaceId == db.documents[d].workspaceId
  }

  ghost predicate RevisionsOld(db: Db) {
    && (forall m :: m in db.members ==> db.members[m].revision < db.nextTx)
    && (forall p :: p in db.projects ==> db.projects[p].revision < db.nextTx)
    && (forall d :: d in db.documents ==> db.documents[d].revision < db.nextTx)
  }

  /** Every constraint of the schema that these statements can touch. */
  ghost predicate Constrained(db: Db) {
    && WorkspacesExist(db) && ProjectsExist(db)
    && OwnersExist(db.projects, db.members) && OwnersExist(db.documents, db.members)
    && EmailsUnique(db.members)
  }

  // ---------------------------------------------------------------- statements on owner links

  /** The ids of a list, as `= ANY($n)` sees them, whose rows satisfy the rest of the condition. */
  function Matching<T>(items: map<Text, Item<T>>, ids: seq<Text>, workspaceId: Text,
                       owner: Option<Text>): set<Text> {
    set i | i in items && i in ids && items[i].workspaceId == workspaceId && items[i].owner == owner
  }

  /** `UPDATE ... SET owner_member_id = next WHERE id = ANY(ids) AND workspace AND owner`. */
  function SetOwners<T>(items: map<Text, Item<T>>, ids: seq<Text>, workspaceId: Text,
                        owner: Option<Text>, next: Option<Text>, tx: nat): map<Text, Item<T>> {
    map i | i in items ::
      if i in Matching(items, ids, workspaceId, owner)
      then items[i].(owner := next, revision := tx) else items[i]
  }

  /** Rows whose owner is the member, in any workspace. */
  function OwnedBy<T>(items: map<Text, Item<T>>, member: Text): set<Text> {
    set i | i in items && items[i].owner == Some(member)
  }

  /** A query result: each id of the set once. */
  ghost predicate Lists(ids: seq<Text>, s: set<Text>) {
    && (forall i, j :: 0 <= i < j < |ids| ==> ids[i] != ids[j])
    && (forall x :: x in ids <==> x in s)
  }

  lemma {:induction false} ListLength(ids: seq<Text>, s: set<Text>)
    requires Lists(ids, s)
    ensures |ids| == |s|
    decreases |ids|
  {
    if ids == [] {
      assert s == {};
    } else {
      var n := |ids| - 1;
      assert ids[n] in ids;
      var rest := s - {ids[n]};
      forall x ensures x in ids[..n] <==> x in rest {
        if x in rest {
          var k :| 0 <= k < |ids| && ids[k] == x;
        }
        if x in ids[..n] {
          assert x in ids;
        }
      }
      ListLength(ids[..n], rest);
    }
  }

  /** The row count equals the list length exactly when every listed row matches. */
  lemma CountIsLength<T>(items: map<Text, Item<T>>, ids: seq<Text>, workspaceId: Text,
                         owner: Option<Text>)
    requires forall i, j :: 0 <= i < j < |ids| ==> ids[i] != ids[j]
    ensures |Matching(items, ids, workspaceId, owner)| == |ids|
      <==> forall x | x in ids ::
             x in items && items[x].workspaceId == workspaceId && items[x].owner == owner
  {
    var all := set x | x in ids;
    var matched := Matching(items, ids, workspaceId, owner);
    assert Lists(ids, all);
    ListLength(ids, all);
    assert matched <= all;
    if |matched| == |ids| {
      SubsetFull(matched, all);
      forall x | x in ids
        ensures x in items && items[x].workspaceId == workspaceId && items[x].owner == owner
      {
        assert x in matched;
      }
    }
    if forall x | x in ids ::
         x in items && items[x].workspaceId == workspaceId && items[x].owner == owner {
      assert matched == all;
    }
  }

  lemma SubsetFull<T>(a: set<T>, b: set<T>)
    requires a <= b && |a| == |b|
    ensures a == b
  {
    assert b == a + (b - a);
  }

  /** Clearing listed links of a member leaves every foreign key satisfied. */
  lemma ClearKeepsOwners<T>(items: map<Text, Item<T>>, members: map<Text, Member>, ids: seq<Text>,
                            workspaceId: Text, member: Text, tx: nat)
    requires OwnersExist(items, members)
    ensures OwnersExist(SetOwners(items, ids, workspaceId, Some(member), None, tx), members)
  {
  }

  /** Handing unowned rows to a member of their workspace leaves every foreign key satisfied. */
  lemma RestoreKeepsOwners<T>(items: map<Text, Item<T>>, members: map<Text, Member>, ids: seq<Text>,
                              workspaceId: Text, member: Text, tx: nat)
    requires OwnersExist(items, members)
    requires member in members && members[member].workspaceId == workspaceId
    ensures OwnersExist(SetOwners(items, ids, workspaceId, None, Some(member), tx), members)
  {
  }

  // ---------------------------------------------------------------- statements on members

  function FindMember(db: Db, workspaceId: Text, memberId: Text): Option<Member> {
    if memberId in db.members && db.members[memberId].workspaceId == workspaceId
    then Some(db.members[memberId]) else None
  }

  predicate EmailTaken(db: Db, workspaceId: Text, email: Text) {
    exists m | m in db.members ::
      db.members[m].workspaceId == workspaceId && db.members[m].email == email
  }

  // ---------------------------------------------------------------- other writers

  /** One committed write of another transaction; the row gets that transaction's id. */
  datatype Write =
    | PutMember(id: Text, member: Member)
    | DropMember(id: Text)
    | PutProject(id: Text, project: Item<ProjectBody>)
    | DropProject(id: Text)
    | PutDocument(id: Text, document: Item<DocumentBody>)
    | DropDocument(id: Text)
    | SetWorkspaces(workspaces: set<Text>)

  function ApplyWrite(db: Db, w: Write): Db {
    var tx := db.nextTx;
    var next := db.(nextTx := tx + 1);
    match w
    case PutMember(id, m) => next.(members := db.members[id := m.(revision := tx)])
    case DropMember(id) => next.(members := db.members - {id})
    case PutProject(id, p) => next.(projects := db.projects[id := p.(revision := tx)])
    case DropProject(id) => next.(projects := db.projects - {id})
    case PutDocument(id, d) => next.(documents := db.documents[id := d.(revision := tx)])
    case DropDocument(id) => next.(documents := db.documents - {id})
    case SetWorkspaces(ws) => next.(workspaces := ws)
  }

  function ApplyWrites(db: Db, writes: seq<Write>): Db
    decreases |writes|
  {
    if writes == [] then db else ApplyWrites(ApplyWrite(db, writes[0]), writes[1..])
  }

  predicate TouchesProject(w: Write, id: Text) {
    (w.PutProject? || w.DropProject?) && w.id == id
  }

  predicate TouchesMember(w: Write, id: Text) {
    (w.PutMember? || w.DropMember?) && w.id == id
  }

  /** Rows nobody wrote are as they were; a row somebody wrote has a revision from after the start. */
  lemma {:induction false} ProjectAfterWrites(db: Db, writes: seq<Write>, id: Text, start: nat)
    requires start <= db.nextTx
    ensures ApplyWrites(db, writes).nextTx == db.nextTx + |writes|
    ensures (forall w | w in writes :: !TouchesProject(w, id)) ==>
      && (id in ApplyWrites(db, writes).projects <==> id in db.projects)
      && (id in db.projects ==> ApplyWrites(db, writes).projects[id] == db.projects[id])
    ensures
      (exists w | w in writes :: TouchesProject(w, id))
      || (id in db.projects && start <= db.projects[id].revision) ==>
      id in ApplyWrites(db, writes).projects ==>
      start <= ApplyWrites(db, writes).projects[id].revision
    decreases |writes|
  {
    if writes != [] {
      assert writes == [writes[0]] + writes[1..];
      ProjectAfterWrites(ApplyWrite(db, writes[0]), writes[1..], id, start);
      if exists w | w in writes[1..] :: TouchesProject(w, id) {
      } else if TouchesProject(writes[0], id) && writes[0].DropProject? {
        assert id !in ApplyWrites(db, writes).projects;
      }
    }
  }

  lemma {:induction false} MemberAfterWrites(db: Db, writes: seq<Write>, id: Text, start: nat)
    requires start <= db.nextTx
    ensures ApplyWrites(db, writes).nextTx == db.nextTx + |writes|
    ensures (forall w | w in writes :: !TouchesMember(w, id)) ==>
      && (id in ApplyWrites(db, writes).members <==> id in db.members)
      && (id in db.members ==> ApplyWrites(db, writes).members[id] == db.members[id])
    ensures
      (exists w | w in writes :: TouchesMember(w, id))
      || (id in db.members && start <= db.members[id].revision) ==>
      id in ApplyWrites(db, writes).members ==>
      start <= ApplyWrites(db, writes).members[id].revision
    decreases |writes|
  {
    if writes != [] {
      assert writes == [writes[0]] + writes[1..];
      MemberAfterWrites(ApplyWrite(db, writes[0]), writes[1..], id, start);
      if exists w | w in writes[1..] :: TouchesMember(w, id) {
      } else if TouchesMember(writes[0], id) && writes[0].DropMember? {
        assert id !in ApplyWrites(db, writes).members;
      }
    }
  }
}
