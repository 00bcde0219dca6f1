/**
 * Properties that relate several store operations: soft delete and the
 * public listing, read flags and the admin listing, the about upsert, and
 * the store invariant along any sequence of writes.
 */
module StoreProperties {
  import opened Base
  import opened Schema
  import opened Storage

  /** A second soft delete of the same id changes nothing and again reports success. */
  lemma DeleteProjectIdempotent(s: Store, id: Id)
    ensures var a := DeleteProject(s, id);
            var b := DeleteProject(a.store, id);
            b.store == a.store && b.result == a.result
  {
    var a := DeleteProject(s, id);
    var b := DeleteProject(a.store, id);
    assert b.store.projects == a.store.projects by {
      forall i | 0 <= i < |a.store.projects| ensures b.store.projects[i] == a.store.projects[i] {
        if a.store.projects[i].id == id {
          assert s.projects[i].id == id;
        }
      }
    }
  }

  /** After a soft delete the row leaves the public listing but is still found by id, now inactive. */
  lemma DeletedProjectHiddenButKept(s: Store, id: Id)
    requires GetProjectById(s, id).Some?
    ensures var s' := DeleteProject(s, id).store;
            && (forall p :: p in GetAllProjects(s') ==> p.id != id)
            && GetProjectById(s', id) == Some(GetProjectById(s, id).value.(isActive := false))
  {
    var rows' := DeleteProject(s, id).store.projects;
    forall p | p in rows' && p.id == id ensures !p.isActive {
      var i :| 0 <= i < |rows'| && rows'[i] == p;
      assert s.projects[i].id == id;
    }
  }

  /** A listed project stays listed when a different id is soft-deleted. */
  lemma ListedUntilDeleted(s: Store, p: Project, id: Id)
    requires p in GetAllProjects(s) && p.id != id
    ensures p in GetAllProjects(DeleteProject(s, id).store)
  {
    var rows' := DeleteProject(s, id).store.projects;
    var i :| 0 <= i < |s.projects| && s.projects[i] == p;
    assert rows'[i] == p;
  }

  /** A listed project stays listed when another project is created. */
  lemma ListedAfterCreate(s: Store, p: Project, id: Id, now: Timestamp, ins: InsertProject)
    requires p in GetAllProjects(s)
    ensures p in GetAllProjects(CreateProject(s, id, now, ins).store)
  {
    var s' := CreateProject(s, id, now, ins).store;
    assert s.projects <= s'.projects;
    var i :| 0 <= i < |s.projects| && s.projects[i] == p;
    assert s'.projects[i] == p;
  }

  /** A new message is unread; marking it read succeeds and the admin listing shows it read. */
  lemma CreateThenMarkRead(s: Store, id: Id, now: Timestamp, ins: InsertContactMessage)
    requires GetContactMessageById(s, id).None?
    ensures var c := CreateContactMessage(s, id, now, ins);
            && c.result.Ok? && !c.result.value.isRead
            && var m := MarkMessageAsRead(c.store, id);
            && m.result
            && c.result.value.(isRead := true) in GetAllContactMessages(m.store)
  {
    var c := CreateContactMessage(s, id, now, ins);
    var m := MarkMessageAsRead(c.store, id);
    var x := GetContactMessageById(m.store, id).value;
    assert x in multiset(m.store.messages);
  }

  /**
   * Two saves of the about content leave exactly one row: it keeps one id,
   * carries the second save's fields, and its `updatedAt` is the second
   * save's time (so it strictly increases when the clock does).
   */
  lemma AboutSavedTwice(s: Store, id1: Id, now1: Timestamp, a: InsertAboutContent,
                        id2: Id, now2: Timestamp, b: InsertAboutContent)
    requires |s.about| <= 1
    ensures var u1 := UpdateAboutContent(s, id1, now1, a);
            var u2 := UpdateAboutContent(u1.store, id2, now2, b);
            && |u2.store.about| == 1
            && u2.store.about[0] == u2.result
            && u2.result.id == u1.result.id
            && AboutFields(u2.result) == b
            && u2.result.updatedAt == now2
            && (now1 < now2 ==> u1.result.updatedAt < u2.result.updatedAt)
  {
  }

  // ---------------------------------------------------------------------------
  // The invariant along any sequence of writes

  /** One write request, with the generated id and clock it receives. */
  datatype Op =
    | CreateProjectOp(id: Id, now: Timestamp, project: InsertProject)
    | DeleteProjectOp(id: Id)
    | CreateMessageOp(id: Id, now: Timestamp, message: InsertContactMessage)
    | MarkReadOp(id: Id)
    | DeleteMessageOp(id: Id)
    | SaveAboutOp(id: Id, now: Timestamp, about: InsertAboutContent)

  /** The store after one write. */
  function Apply(s: Store, op: Op): (s': Store)
    ensures Valid(s) ==> Valid(s')
  {
    match op
    case CreateProjectOp(id, now, p) => CreateProject(s, id, now, p).store
    case DeleteProjectOp(id) => DeleteProject(s, id).store
    case CreateMessageOp(id, now, m) => CreateContactMessage(s, id, now, m).store
    case MarkReadOp(id) => MarkMessageAsRead(s, id).store
    case DeleteMessageOp(id) => DeleteContactMessage(s, id).store
    case SaveAboutOp(id, now, a) => UpdateAboutContent(s, id, now, a).store
  }

  /** The store after a sequence of writes, in order. */
  function Run(s: Store, ops: seq<Op>): Store
    decreases |ops|
  {
    if |ops| == 0 then s else Run(Apply(s, ops[0]), ops[1..])
  }

  /** Every sequence of writes keeps ids unique and at most one about row. */
  lemma {:induction false} RunPreservesValid(s: Store, ops: seq<Op>)
    requires Valid(s)
    ensures Valid(Run(s, ops))
    decreases |ops|
  {
    if |ops| > 0 {
      RunPreservesValid(Apply(s, ops[0]), ops[1..]);
    }
  }

  /** From the empty store, whatever the writes, there is never more than one about row. */
  lemma AtMostOneAboutRow(ops: seq<Op>)
    ensures |Run(EmptyStore, ops).about| <= 1
  {
    EmptyStoreValid();
    RunPreservesValid(EmptyStore, ops);
  }
}
