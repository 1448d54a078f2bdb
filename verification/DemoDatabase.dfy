/** The demo repositories as methods that update the tables in place, against their meanings. */
module DemoDatabase {
  import opened Prelude
  import opened JsonText
  import opened DemoState
  import opened MemberRemove
  import opened ProjectArchive

  /** The rows with those of `chosen` handed to `next`. */
  ghost function Handed<T>(items: map<Text, Item<T>>, chosen: set<Text>, next: Option<Text>, tx: nat)
    : map<Text, Item<T>>
  {
    map i | i in items :: if i in chosen then items[i].(owner := next, revision := tx) else items[i]
  }

  lemma HandedMore<T>(items: map<Text, Item<T>>, chosen: set<Text>, i: Text, next: Option<Text>, tx: nat)
    requires i in items
    ensures Handed(items, chosen + {i}, next, tx)
         == Handed(items, chosen, next, tx)[i := items[i].(owner := next, revision := tx)]
  {
  }

  lemma HandedAll<T>(items: map<Text, Item<T>>, ids: seq<Text>, workspaceId: Text, owner: Option<Text>,
                     next: Option<Text>, tx: nat)
    ensures Handed(items, Matching(items, ids, workspaceId, owner), next, tx)
         == SetOwners(items, ids, workspaceId, owner, next, tx)
    ensures Handed(items, {}, next, tx) == items
  {
    hide Matching;
  }

  lemma MatchingRows<T>(items: map<Text, Item<T>>, ids: seq<Text>, workspaceId: Text, owner: Option<Text>)
    ensures Matching(items, ids, workspaceId, owner) <= items.Keys
    ensures forall i | i in items.Keys ::
      (i in Matching(items, ids, workspaceId, owner)
       <==> i in ids && items[i].workspaceId == workspaceId && items[i].owner == owner)
  {
  }

  /** One UPDATE of owner links: every row is visited, those that meet the condition are set and counted. */
  method UpdateOwners<T>(items: map<Text, Item<T>>, ids: seq<Text>, workspaceId: Text, owner: Option<Text>,
                         next: Option<Text>, tx: nat)
    returns (updated: map<Text, Item<T>>, count: nat)
    ensures updated == SetOwners(items, ids, workspaceId, owner, next, tx)
    ensures count == |Matching(items, ids, workspaceId, owner)|
  {
    hide Handed, SetOwners, Matching;
    ghost var matching, chosen := Matching(items, ids, workspaceId, owner), {};
    HandedAll(items, ids, workspaceId, owner, next, tx);
    MatchingRows(items, ids, workspaceId, owner);
    updated, count := items, 0;
    var todo := items.Keys;
    while todo != {}
      invariant todo <= items.Keys && chosen == matching - todo
      invariant updated == Handed(items, chosen, next, tx) && count == |chosen|
      decreases |todo|
    {
      var i :| i in todo;
      todo := todo - {i};
      if i in ids && items[i].workspaceId == workspaceId && items[i].owner == owner {
        HandedMore(items, chosen, i, next, tx);
        updated := updated[i := items[i].(owner := next, revision := tx)];
        chosen, count := chosen + {i}, count + 1;
      }
    }
    assert chosen == matching;
  }

  /** The tables as one connection's transaction sees and changes them. */
  class Tables {
    var workspaces: set<Text>
    var members: map<Text, Member>
    var projects: Projects
    var documents: Documents
    var nextTx: nat

    ghost function State(): Db
      reads this
    {
      Db(workspaces, members, projects, documents, nextTx)
    }

    constructor (db: Db)
      ensures State() == db
    {
      workspaces := db.workspaces;
      members := db.members;
      projects := db.projects;
      documents := db.documents;
      nextTx := db.nextTx;
    }

    method Rollback(db: Db)
      modifies this
      ensures State() == db
    {
      workspaces := db.workspaces;
      members := db.members;
      projects := db.projects;
      documents := db.documents;
      nextTx := db.nextTx;
    }

    method ClearExpectedProjectOwnerLinks(snap: Snapshot) returns (count: nat)
      modifies this`projects
      ensures count == |Matching(old(projects), snap.projectIds, snap.workspaceId, Some(snap.memberId))|
      ensures projects == SetOwners(old(projects), snap.projectIds, snap.workspaceId,
                                    Some(snap.memberId), None, nextTx)
    {
      if |snap.projectIds| == 0 {
        NothingListed(projects, snap.workspaceId, Some(snap.memberId), None, nextTx);
        return 0;
      }
      projects, count := UpdateOwners(projects, snap.projectIds, snap.workspaceId, Some(snap.memberId), None, nextTx);
    }

    method ClearExpectedDocumentOwnerLinks(snap: Snapshot) returns (count: nat)
      modifies this`documents
      ensures count == |Matching(old(documents), snap.documentIds, snap.workspaceId, Some(snap.memberId))|
      ensures documents == SetOwners(old(documents), snap.documentIds, snap.workspaceId,
                                     Some(snap.memberId), None, nextTx)
    {
      if |snap.documentIds| == 0 {
        NothingListed(documents, snap.workspaceId, Some(snap.memberId), None, nextTx);
        return 0;
      }
      documents, count := UpdateOwners(documents, snap.documentIds, snap.workspaceId, Some(snap.memberId), None, nextTx);
    }

    /** Row counts that do not match end the method early, leaving the updates made so far. */
    method DeleteDemoMember(snap: Snapshot) returns (r: Result<(nat, nat), Failure>)
      modifies this
      ensures match DeleteMember(old(State()), snap)
        case Ok(db) => State() == db && r == Ok((|snap.projectIds|, |snap.documentIds|))
        case Err(e) => r == Err(e)
    {
      var projectLinks := ClearExpectedProjectOwnerLinks(snap);
      if projectLinks != |snap.projectIds| {
        return Err(Conflict);
      }
      var documentLinks := ClearExpectedDocumentOwnerLinks(snap);
      if documentLinks != |snap.documentIds| {
        return Err(Conflict);
      }
      if !RowMatches(Db(workspaces, members, projects, documents, nextTx), snap) {
        return Err(Conflict);
      }
      if OwnedBy(projects, snap.memberId) != {} || OwnedBy(documents, snap.memberId) != {} {
        return Err(ForeignKeyViolation);
      }
      members := members - {snap.memberId};
      nextTx := nextTx + 1;
      r := Ok((projectLinks, documentLinks));
    }

    /** The execute handler inside its transaction: a failure leaves the tables as they were. */
    method RemoveMember(snap: Snapshot) returns (r: Result<(nat, nat), Failure>)
      modifies this
      ensures match DeleteMember(old(State()), snap)
        case Ok(db) => State() == db && r == Ok((|snap.projectIds|, |snap.documentIds|))
        case Err(e) => State() == old(State()) && r == Err(e)
    {
      var before := Db(workspaces, members, projects, documents, nextTx);
      r := DeleteDemoMember(snap);
      if r.Err? {
        Rollback(before);
      }
    }

    method InsertDemoMember(snap: Snapshot) returns (r: Result<Member, Failure>)
      modifies this`members
      ensures match InsertMember(old(State()), snap)
        case Ok(db) => State() == db && r.Ok?
        case Err(e) => State() == old(State()) && r == Err(e)
      ensures r.Ok? ==>
        && r.value == Member(snap.workspaceId, snap.name, snap.email, snap.role, snap.createdAtMs * 1000, nextTx)
        && members == old(members)[snap.memberId := r.value]
    {
      if snap.memberId in members
         || EmailTaken(Db(workspaces, members, projects, documents, nextTx), snap.workspaceId, snap.email) {
        return Err(Conflict);
      }
      if snap.workspaceId !in workspaces {
        return Err(ForeignKeyViolation);
      }
      members := members[snap.memberId := RestoredRow(snap, nextTx)];
      r := Ok(members[snap.memberId]);
    }

    method RestoreProjectOwnerLinks(snap: Snapshot) returns (count: nat)
      modifies this`projects
      ensures count == |Matching(old(projects), snap.projectIds, snap.workspaceId, None)|
      ensures projects == SetOwners(old(projects), snap.projectIds, snap.workspaceId, None,
                                    Some(snap.memberId), nextTx)
    {
      if |snap.projectIds| == 0 {
        NothingListed(projects, snap.workspaceId, None, Some(snap.memberId), nextTx);
        return 0;
      }
      projects, count := UpdateOwners(projects, snap.projectIds, snap.workspaceId, None, Some(snap.memberId), nextTx);
    }

    method RestoreDocumentOwnerLinks(snap: Snapshot) returns (count: nat)
      modifies this`documents
      ensures count == |Matching(old(documents), snap.documentIds, snap.workspaceId, None)|
      ensures documents == SetOwners(old(documents), snap.documentIds, snap.workspaceId, None,
                                     Some(snap.memberId), nextTx)
    {
      if |snap.documentIds| == 0 {
        NothingListed(documents, snap.workspaceId, None, Some(snap.memberId), nextTx);
        return 0;
      }
      documents, count := UpdateOwners(documents, snap.documentIds, snap.workspaceId, None, Some(snap.memberId), nextTx);
    }

    /** The undo handler inside its transaction, with the counts it reports. */
    method UndoRemoveMember(snap: Snapshot) returns (r: Result<(nat, nat), Failure>)
      modifies this
      ensures match Undo(old(State()), snap)
        case Ok(db) => State() == db && r == Ok((|snap.projectIds|, |snap.documentIds|))
        case Err(e) => State() == old(State()) && r == Err(e)
      ensures r.Ok? ==> members == old(members)[snap.memberId :=
        Member(snap.workspaceId, snap.name, snap.email, snap.role, snap.createdAtMs * 1000, old(nextTx))]
    {
      var before := Db(workspaces, members, projects, documents, nextTx);
      var inserted := InsertDemoMember(snap);
      if inserted.Err? {
        return Err(inserted.error);
      }
      var projectLinks := RestoreProjectOwnerLinks(snap);
      if projectLinks != |snap.projectIds| {
        Rollback(before);
        return Err(Conflict);
      }
      var documentLinks := RestoreDocumentOwnerLinks(snap);
      if documentLinks != |snap.documentIds| {
        Rollback(before);
        return Err(Conflict);
      }
      nextTx := nextTx + 1;
      r := Ok((projectLinks, documentLinks));
    }

    /** Compare-and-set on status and revision; the answer is the revision undo will expect. */
    method ArchiveDemoProject(workspaceId: Text, id: Text, expected: nat, now: int)
      returns (r: Result<nat, Failure>)
      modifies this
      ensures match Archive(old(State()), workspaceId, id, expected, now)
        case Ok(db) => State() == db && r == Ok(db.projects[id].revision)
        case Err(e) => State() == old(State()) && r == Err(e)
      ensures r.Ok? ==>
        && id in projects && projects[id].body.status == Archived
        && projects[id].body.archivedAt == Some(now) && projects[id].body.updatedAt == now
    {
      if id !in projects || projects[id].workspaceId != workspaceId
         || projects[id].body.status != Active || projects[id].revision != expected {
        return Err(Conflict);
      }
      var row := projects[id];
      var body := row.body.(status := Archived, archivedAt := Some(now), updatedAt := now);
      projects := projects[id := row.(body := body, revision := nextTx)];
      r := Ok(nextTx);
      nextTx := nextTx + 1;
    }

    method RestoreDemoProject(snap: ArchiveSnapshot, expected: nat) returns (r: Result<nat, Failure>)
      modifies this
      ensures match Restore(old(State()), snap, expected)
        case Ok(db) => State() == db && r == Ok(db.projects[snap.projectId].revision)
        case Err(e) => State() == old(State()) && r == Err(e)
      ensures r.Ok? ==>
        && snap.projectId in projects && projects[snap.projectId].body.status == snap.status
        && projects[snap.projectId].body.updatedAt == snap.updatedAtMs * 1000
    {
      var id := snap.projectId;
      if id !in projects || projects[id].workspaceId != snap.workspaceId
         || projects[id].body.status != Archived || projects[id].revision != expected {
        return Err(Conflict);
      }
      var row := projects[id];
      var body := row.body.(status := snap.status, archivedAt := MicrosOrNull(snap.archivedAtMs),
                            updatedAt := FromMillis(snap.updatedAtMs));
      projects := projects[id := row.(body := body, revision := nextTx)];
      r := Ok(nextTx);
      nextTx := nextTx + 1;
    }

    method ChangeDemoMemberRole(workspaceId: Text, id: Text, expected: Role, role: Role)
      returns (r: Result<Member, Failure>)
      modifies this
      ensures match ChangeRole(old(State()), workspaceId, id, expected, role)
        case Ok(db) => State() == db && r == Ok(db.members[id])
        case Err(e) => State() == old(State()) && r == Err(e)
    {
      if id !in members || members[id].workspaceId != workspaceId || members[id].role != expected {
        return Err(Conflict);
      }
      members := members[id := members[id].(role := role, revision := nextTx)];
      nextTx := nextTx + 1;
      r := Ok(members[id]);
    }
  }

  /** Updating no rows is skipping the statement. */
  lemma NothingListed<T>(items: map<Text, Item<T>>, ws: Text, owner: Option<Text>,
                         next: Option<Text>, tx: nat)
    ensures Matching(items, [], ws, owner) == {}
    ensures SetOwners(items, [], ws, owner, next, tx) == items
  {
  }

  /** Removing a member and undoing it at once, on the tables themselves. */
  method RemoveAndUndo(tables: Tables, snap: Snapshot)
    requires Constrained(tables.State()) && ReadFrom(tables.State(), snap)
    modifies tables
    ensures Constrained(tables.State())
    ensures Visible(tables.State(), snap.memberId) == Visible(old(tables.State()), snap.memberId)
  {
    ghost var before := tables.State();
    RemovalCanBeUndone(before, snap);
    RemoveThenUndo(before, snap);
    DeleteKeepsConstraints(before, snap);
    UndoKeepsConstraints(DeleteMember(before, snap).value, snap);
    var removed := tables.RemoveMember(snap);
    var restored := tables.UndoRemoveMember(snap);
  }
}
