/**
 * The content store (`DatabaseStorage`): three tables and the ten operations
 * the request handlers call. Every operation is a pure function from the
 * current store to the next store and a result. The generated uuid and the
 * database clock are parameters.
 */
module Storage {
  import opened Base
  import opened Schema
  import Rows

  /** The three tables, each in physical (insertion) order. */
  datatype Store = Store(
    projects: seq<Project>,
    messages: seq<ContactMessage>,
    about: seq<AboutContent>)

  /** The store after an operation, and what the operation returned. */
  datatype Step<+T> = Step(store: Store, result: T)

  /** An insert whose generated id is already taken violates the primary key. */
  datatype StoreError = DuplicateId(id: Id)

  const EmptyStore := Store([], [], [])

  function ProjectKey(p: Project): Id { p.id }
  function MessageKey(m: ContactMessage): Id { m.id }
  function AboutKey(a: AboutContent): Id { a.id }
  function ProjectCreated(p: Project): int { p.createdAt }
  function MessageCreated(m: ContactMessage): int { m.createdAt }
  predicate ProjectActive(p: Project) { p.isActive }

  function Deactivate(p: Project): Project { p.(isActive := false) }
  function MarkRead(m: ContactMessage): ContactMessage { m.(isRead := true) }

  /** The store's invariant: primary keys are unique and there is at most one about row. */
  predicate Valid(s: Store) {
    && Rows.UniqueKeys(s.projects, ProjectKey)
    && Rows.UniqueKeys(s.messages, MessageKey)
    && Rows.UniqueKeys(s.about, AboutKey)
    && |s.about| <= 1
  }

  lemma EmptyStoreValid()
    ensures Valid(EmptyStore)
  {
  }

  // ---------------------------------------------------------------------------
  // Projects

  /** The public listing: exactly the active rows, newest first. */
  function GetAllProjects(s: Store): (r: seq<Project>)
    ensures forall p :: p in r <==> p in s.projects && p.isActive
    ensures Rows.SortedDesc(r, ProjectCreated)
    ensures multiset(r) <= multiset(s.projects)
  {
    var active := Rows.Where(s.projects, ProjectActive);
    var r := Rows.SortDesc(active, ProjectCreated);
    assert forall p :: p in r <==> p in active by {
      forall p ensures p in r <==> p in active {
        assert p in r <==> p in multiset(r);
      }
    }
    r
  }

  /** The row with primary key `id`, active or not. */
  function GetProjectById(s: Store, id: Id): (r: Option<Project>)
    ensures r.Some? <==> Rows.HasKey(s.projects, ProjectKey, id)
    ensures r.Some? ==> r.value in s.projects && r.value.id == id
  {
    Rows.Find(s.projects, ProjectKey, id)
  }

  /**
   * Inserts the project built from `ins` under the generated `id` at time
   * `now`; fails when `id` is already taken.
   */
  function CreateProject(s: Store, id: Id, now: Timestamp, ins: InsertProject): (r: Step<Result<Project, StoreError>>)
    ensures r.result.Ok? <==> GetProjectById(s, id).None?
    ensures r.result.Err? ==> r.store == s
    ensures r.result.Ok? ==>
              && r.result.value == NewProject(id, now, ins)
              && r.store.projects == s.projects + [r.result.value]
              && GetProjectById(r.store, id) == Some(r.result.value)
              && (r.result.value.isActive ==> r.result.value in GetAllProjects(r.store))
    ensures forall k :: k != id ==> GetProjectById(r.store, k) == GetProjectById(s, k)
    ensures r.store.messages == s.messages && r.store.about == s.about
    ensures Valid(s) ==> Valid(r.store)
  {
    if Rows.HasKey(s.projects, ProjectKey, id) then Step(s, Err(DuplicateId(id)))
    else
      var p := NewProject(id, now, ins);
      var s' := s.(projects := s.projects + [p]);
      assert forall k :: GetProjectById(s', k) == if k == id then Some(p) else GetProjectById(s, k) by {
        forall k ensures GetProjectById(s', k) == if k == id then Some(p) else GetProjectById(s, k) {
          Rows.FindAfterAppend(s.projects, ProjectKey, p, k);
        }
      }
      assert Valid(s) ==> Valid(s') by {
        Rows.FindAfterAppend(s.projects, ProjectKey, p, id);
      }
      Step(s', Ok(p))
  }

  /**
   * Soft delete: sets `isActive` to false on the row with primary key `id`.
   * Returns whether such a row exists, whether or not it was already inactive.
   */
  function DeleteProject(s: Store, id: Id): (r: Step<bool>)
    ensures r.result <==> GetProjectById(s, id).Some?
    ensures GetProjectById(s, id).Some? ==>
              GetProjectById(r.store, id) == Some(GetProjectById(s, id).value.(isActive := false))
    ensures !r.result ==> r.store == s
    ensures forall k :: k != id ==> GetProjectById(r.store, k) == GetProjectById(s, k)
    ensures |r.store.projects| == |s.projects|
    ensures r.store.messages == s.messages && r.store.about == s.about
    ensures Valid(s) ==> Valid(r.store)
  {
    var rows := Rows.UpdateWhere(s.projects, ProjectKey, id, Deactivate);
    var found := Rows.HasKey(s.projects, ProjectKey, id);
    assert forall k :: Rows.Find(rows, ProjectKey, k) ==
                       if k == id && Rows.Find(s.projects, ProjectKey, id).Some?
                       then Some(Deactivate(Rows.Find(s.projects, ProjectKey, id).value))
                       else Rows.Find(s.projects, ProjectKey, k) by {
      forall k ensures Rows.Find(rows, ProjectKey, k) ==
                       if k == id && Rows.Find(s.projects, ProjectKey, id).Some?
                       then Some(Deactivate(Rows.Find(s.projects, ProjectKey, id).value))
                       else Rows.Find(s.projects, ProjectKey, k) {
        Rows.FindAfterUpdate(s.projects, ProjectKey, id, Deactivate, k);
      }
    }
    assert Rows.UniqueKeys(s.projects, ProjectKey) ==> Rows.UniqueKeys(rows, ProjectKey) by {
      if Rows.UniqueKeys(s.projects, ProjectKey) { Rows.UpdateKeepsUniqueKeys(s.projects, ProjectKey, id, Deactivate); }
    }
    assert !found ==> rows == s.projects;
    Step(s.(projects := rows), found)
  }

  // ---------------------------------------------------------------------------
  // Contact messages

  /** The admin listing: every message, read or unread, newest first. */
  function GetAllContactMessages(s: Store): (r: seq<ContactMessage>)
    ensures multiset(r) == multiset(s.messages)
    ensures Rows.SortedDesc(r, MessageCreated)
  {
    Rows.SortDesc(s.messages, MessageCreated)
  }

  /** The message with primary key `id`. */
  function GetContactMessageById(s: Store, id: Id): (r: Option<ContactMessage>)
    ensures r.Some? <==> Rows.HasKey(s.messages, MessageKey, id)
    ensures r.Some? ==> r.value in s.messages && r.value.id == id
  {
    Rows.Find(s.messages, MessageKey, id)
  }

  /** Inserts a message under the generated `id`; it starts out unread. Fails when `id` is taken. */
  function CreateContactMessage(s: Store, id: Id, now: Timestamp, ins: InsertContactMessage)
    : (r: Step<Result<ContactMessage, StoreError>>)
    ensures r.result.Ok? <==> GetContactMessageById(s, id).None?
    ensures r.result.Err? ==> r.store == s
    ensures r.result.Ok? ==>
              && !r.result.value.isRead
              && ContactFields(r.result.value) == ins
              && r.store.messages == s.messages + [r.result.value]
              && r.result.value.createdAt == now
              && GetContactMessageById(r.store, id) == Some(r.result.value)
              && r.result.value in GetAllContactMessages(r.store)
    ensures forall k :: k != id ==> GetContactMessageById(r.store, k) == GetContactMessageById(s, k)
    ensures r.store.projects == s.projects && r.store.about == s.about
    ensures Valid(s) ==> Valid(r.store)
  {
    if Rows.HasKey(s.messages, MessageKey, id) then Step(s, Err(DuplicateId(id)))
    else
      var m := NewContactMessage(id, now, ins);
      var s' := s.(messages := s.messages + [m]);
      assert forall k :: GetContactMessageById(s', k) == if k == id then Some(m) else GetContactMessageById(s, k) by {
        forall k ensures GetContactMessageById(s', k) == if k == id then Some(m) else GetContactMessageById(s, k) {
          Rows.FindAfterAppend(s.messages, MessageKey, m, k);
        }
      }
      assert Valid(s) ==> Valid(s') by {
        Rows.FindAfterAppend(s.messages, MessageKey, m, id);
      }
      assert m in multiset(s'.messages);
      Step(s', Ok(m))
  }

  /** Sets `isRead` on the message with primary key `id`; returns whether it exists. */
  function MarkMessageAsRead(s: Store, id: Id): (r: Step<bool>)
    ensures r.result <==> GetContactMessageById(s, id).Some?
    ensures GetContactMessageById(s, id).Some? ==>
              GetContactMessageById(r.store, id) == Some(GetContactMessageById(s, id).value.(isRead := true))
    ensures !r.result ==> r.store == s
    ensures forall k :: k != id ==> GetContactMessageById(r.store, k) == GetContactMessageById(s, k)
    ensures |r.store.messages| == |s.messages|
    ensures r.store.projects == s.projects && r.store.about == s.about
    ensures Valid(s) ==> Valid(r.store)
  {
    var rows := Rows.UpdateWhere(s.messages, MessageKey, id, MarkRead);
    var found := Rows.HasKey(s.messages, MessageKey, id);
    assert forall k :: Rows.Find(rows, MessageKey, k) ==
                       if k == id && Rows.Find(s.messages, MessageKey, id).Some?
                       then Some(MarkRead(Rows.Find(s.messages, MessageKey, id).value))
                       else Rows.Find(s.messages, MessageKey, k) by {
      forall k ensures Rows.Find(rows, MessageKey, k) ==
                       if k == id && Rows.Find(s.messages, MessageKey, id).Some?
                       then Some(MarkRead(Rows.Find(s.messages, MessageKey, id).value))
                       else Rows.Find(s.messages, MessageKey, k) {
        Rows.FindAfterUpdate(s.messages, MessageKey, id, MarkRead, k);
      }
    }
    assert Rows.UniqueKeys(s.messages, MessageKey) ==> Rows.UniqueKeys(rows, MessageKey) by {
      if Rows.UniqueKeys(s.messages, MessageKey) { Rows.UpdateKeepsUniqueKeys(s.messages, MessageKey, id, MarkRead); }
    }
    assert !found ==> rows == s.messages;
    Step(s.(messages := rows), found)
  }

  /** Hard delete of the message with primary key `id`; returns whether it existed. */
  function DeleteContactMessage(s: Store, id: Id): (r: Step<bool>)
    ensures r.result <==> GetContactMessageById(s, id).Some?
    ensures GetContactMessageById(r.store, id).None?
    ensures !r.result ==> r.store == s
    ensures forall k :: k != id ==> GetContactMessageById(r.store, k) == GetContactMessageById(s, k)
    ensures forall m :: m in r.store.messages <==> m in s.messages && m.id != id
    ensures r.store.projects == s.projects && r.store.about == s.about
    ensures Valid(s) ==> Valid(r.store)
  {
    var found := Rows.HasKey(s.messages, MessageKey, id);
    assert !found ==> Rows.DeleteWhere(s.messages, MessageKey, id) == s.messages by {
      if !found { Rows.DeleteAbsentKey(s.messages, MessageKey, id); }
    }
    Step(s.(messages := Rows.DeleteWhere(s.messages, MessageKey, id)), found)
  }

  // ---------------------------------------------------------------------------
  // About content

  /** The first about row (`LIMIT 1`), or none. */
  function GetAboutContent(s: Store): (r: Option<AboutContent>)
    ensures r.None? <==> |s.about| == 0
    ensures r.Some? ==> r.value in s.about
  {
    if |s.about| == 0 then None else Some(s.about[0])
  }

  /** The existing row `a` with all six text columns replaced by `ins` and `updatedAt` set to `now`. */
  function Overwrite(a: AboutContent, ins: InsertAboutContent, now: Timestamp): (r: AboutContent)
    ensures r.id == a.id && r.updatedAt == now && AboutFields(r) == ins
  {
    NewAboutContent(a.id, now, ins)
  }

  /**
   * Upsert of the single about row: when a row exists it is rewritten in
   * place under its own id; otherwise one row is inserted under `freshId`.
   */
  function UpdateAboutContent(s: Store, freshId: Id, now: Timestamp, ins: InsertAboutContent)
    : (r: Step<AboutContent>)
    ensures AboutFields(r.result) == ins && r.result.updatedAt == now
    ensures GetAboutContent(s).Some? ==> r.result.id == GetAboutContent(s).value.id
    ensures GetAboutContent(s).None? ==> r.result.id == freshId && r.store.about == [r.result]
    ensures GetAboutContent(r.store) == Some(r.result)
    ensures |s.about| <= 1 ==> |r.store.about| == 1
    ensures r.store.projects == s.projects && r.store.messages == s.messages
    ensures Valid(s) ==> Valid(r.store)
  {
    if |s.about| > 0 then
      var existing := s.about[0];
      var f := (a: AboutContent) => Overwrite(a, ins, now);
      var rows := Rows.UpdateWhere(s.about, AboutKey, existing.id, f);
      assert Rows.UniqueKeys(s.about, AboutKey) ==> Rows.UniqueKeys(rows, AboutKey) by {
        if Rows.UniqueKeys(s.about, AboutKey) { Rows.UpdateKeepsUniqueKeys(s.about, AboutKey, existing.id, f); }
      }
      Step(s.(about := rows), Overwrite(existing, ins, now))
    else
      var a := NewAboutContent(freshId, now, ins);
      Step(s.(about := [a]), a)
  }
}
