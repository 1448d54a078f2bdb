/** What the other transactions of the demo can do: anything at all. */
module DemoWriters {
  import opened Prelude
  import opened JsonText
  import opened DemoState

  /** The same rows and workspaces; the revisions may differ. */
  ghost predicate SameButRevisions(a: Db, b: Db) {
    && a.workspaces == b.workspaces
    && a.members.Keys == b.members.Keys && a.projects.Keys == b.projects.Keys && a.documents.Keys == b.documents.Keys
    && (forall i | i in a.members :: LikeMember(a.members[i], b.members[i]))
    && (forall i | i in a.projects :: LikeItem(a.projects[i], b.projects[i]))
    && (forall i | i in a.documents :: LikeItem(a.documents[i], b.documents[i]))
  }

  predicate LikeMember(a: Member, b: Member) {
    && a.workspaceId == b.workspaceId && a.name == b.name && a.email == b.email && a.role == b.role
    && a.createdAt == b.createdAt
  }

  predicate LikeItem<T(==)>(a: Item<T>, b: Item<T>) {
    a.workspaceId == b.workspaceId && a.owner == b.owner && a.body == b.body
  }

  lemma {:induction false} WritesAppend(db: Db, a: seq<Write>, b: seq<Write>)
    ensures ApplyWrites(db, a + b) == ApplyWrites(ApplyWrites(db, a), b)
    decreases |a|
  {
    hide ApplyWrite;
    if a == [] {
      assert a + b == b;
    } else {
      assert (a + b)[1..] == a[1..] + b;
      WritesAppend(ApplyWrite(db, a[0]), a[1..], b);
    }
  }

  lemma FirstWrite(db: Db, w: Write, rest: seq<Write>)
    ensures ApplyWrites(db, [w] + rest) == ApplyWrites(ApplyWrite(db, w), rest)
  {
    assert ([w] + rest)[1..] == rest;
  }

  /** Members can be made any others, one by one, and nothing else changes. */
  lemma {:induction false} WriteMembers(db: Db, target: Db, ids: set<Text>) returns (writes: seq<Write>)
    ensures var after := ApplyWrites(db, writes);
      && after.workspaces == db.workspaces && after.projects == db.projects && after.documents == db.documents
      && (forall i | i !in ids :: (i in after.members <==> i in db.members)
            && (i in db.members ==> after.members[i] == db.members[i]))
      && (forall i | i in ids :: (i in after.members <==> i in target.members)
            && (i in target.members ==> LikeMember(after.members[i], target.members[i])))
    decreases ids
  {
    if ids == {} {
      writes := [];
    } else {
      var id :| id in ids;
      var w := if id in target.members then PutMember(id, target.members[id]) else DropMember(id);
      var rest := WriteMembers(ApplyWrite(db, w), target, ids - {id});
      FirstWrite(db, w, rest);
      writes := [w] + rest;
    }
  }

  lemma {:induction false} WriteProjects(db: Db, target: Db, ids: set<Text>) returns (writes: seq<Write>)
    ensures var after := ApplyWrites(db, writes);
      && after.workspaces == db.workspaces && after.members == db.members && after.documents == db.documents
      && (forall i | i !in ids :: (i in after.projects <==> i in db.projects)
            && (i in db.projects ==> after.projects[i] == db.projects[i]))
      && (forall i | i in ids :: (i in after.projects <==> i in target.projects)
            && (i in target.projects ==> LikeItem(after.projects[i], target.projects[i])))
    decreases ids
  {
    if ids == {} {
      writes := [];
    } else {
      var id :| id in ids;
      var w := if id in target.projects then PutProject(id, target.projects[id]) else DropProject(id);
      var rest := WriteProjects(ApplyWrite(db, w), target, ids - {id});
      FirstWrite(db, w, rest);
      writes := [w] + rest;
    }
  }

  lemma {:induction false} WriteDocuments(db: Db, target: Db, ids: set<Text>) returns (writes: seq<Write>)
    ensures var after := ApplyWrites(db, writes);
      && after.workspaces == db.workspaces && after.members == db.members && after.projects == db.projects
      && (forall i | i !in ids :: (i in after.documents <==> i in db.documents)
            && (i in db.documents ==> after.documents[i] == db.documents[i]))
      && (forall i | i in ids :: (i in after.documents <==> i in target.documents)
            && (i in target.documents ==> LikeItem(after.documents[i], target.documents[i])))
    decreases ids
  {
    if ids == {} {
      writes := [];
    } else {
      var id :| id in ids;
      var w := if id in target.documents then PutDocument(id, target.documents[id]) else DropDocument(id);
      var rest := WriteDocuments(ApplyWrite(db, w), target, ids - {id});
      FirstWrite(db, w, rest);
      writes := [w] + rest;
    }
  }

  /**
   From any state the writers that interfere can reach any other, up to revisions: what is proved
   under their interference is proved under any.
   */
  lemma AnythingCanBeWritten(db: Db, target: Db) returns (writes: seq<Write>)
    ensures SameButRevisions(ApplyWrites(db, writes), target)
  {
    hide ApplyWrites;
    var w1 := WriteMembers(db, target, db.members.Keys + target.members.Keys);
    var db1 := ApplyWrites(db, w1);
    var w2 := WriteProjects(db1, target, db.projects.Keys + target.projects.Keys);
    var db2 := ApplyWrites(db1, w2);
    var w3 := WriteDocuments(db2, target, db.documents.Keys + target.documents.Keys);
    var db3 := ApplyWrites(db2, w3);
    var w4 := [SetWorkspaces(target.workspaces)];
    LastWrite(db3, target.workspaces);
    writes := w1 + w2 + w3 + w4;
    WritesAppend(db, w1, w2);
    WritesAppend(db, w1 + w2, w3);
    WritesAppend(db, w1 + w2 + w3, w4);
  }

  lemma LastWrite(db: Db, workspaces: set<Text>)
    ensures var after := ApplyWrites(db, [SetWorkspaces(workspaces)]);
      && after.workspaces == workspaces && after.members == db.members && after.projects == db.projects
      && after.documents == db.documents
  {
    FirstWrite(db, SetWorkspaces(workspaces), []);
  }
}
