/**
 * The request handlers: each route validates its input, calls the store,
 * and maps the store's answer to an HTTP status and payload. A route that
 * changes the store returns the next store along with its response.
 */
module Routes {
  import opened Base
  import opened Schema
  import opened Storage
  import Rows
  import Upload

  /** The single fixed credential pair the admin login compares against. */
  const AdminEmail := "moeezdesignadmin@gmail.com"
  const AdminPassword := "Moeez@admin786.."

  /** The JSON (or error page) a response carries. */
  datatype Payload =
    | Ack(success: bool, message: string)
    | Note(message: string)
    | ProjectJson(project: Project)
    | ProjectListJson(projects: seq<Project>)
    | MessageJson(contact: ContactMessage)
    | MessageListJson(contacts: seq<ContactMessage>)
    | AboutJson(about: Option<AboutContent>)
    | ErrorPage(reason: Upload.Rejection)

  datatype Response = Response(status: nat, payload: Payload)

  // ---------------------------------------------------------------------------
  // POST /api/admin/login

  /** Compares a well-formed login request with the fixed credential pair. */
  function Login(body: Body, isEmail: string -> bool): (r: Response)
    ensures r.status == 200 || r.status == 400 || r.status == 401
    ensures r.status == 400 <==> ParseAdminLogin(body, isEmail).None?
    ensures r.status == 200 <==>
              && StringField(body, "email") == Some(AdminEmail)
              && StringField(body, "password") == Some(AdminPassword)
              && isEmail(AdminEmail)
    ensures r.status == 200 ==> r.payload == Ack(true, "Login successful")
    ensures r.status != 200 ==> r.payload.Ack? && !r.payload.success
  {
    match ParseAdminLogin(body, isEmail)
    case None => Response(400, Ack(false, "Invalid request data"))
    case Some(login) =>
      if login.email == AdminEmail && login.password == AdminPassword
      then Response(200, Ack(true, "Login successful"))
      else Response(401, Ack(false, "Invalid credentials"))
  }

  // ---------------------------------------------------------------------------
  // Store booleans to status codes

  /** `true` from the store answers 200 with `success: true`; `false` answers 404. */
  function FlagResponse(found: bool, done: string, missing: string): (r: Response)
    ensures r.status == 200 <==> found
    ensures r.status == 404 <==> !found
    ensures found ==> r.payload == Ack(true, done)
    ensures !found ==> r.payload == Note(missing)
  {
    if found then Response(200, Ack(true, done)) else Response(404, Note(missing))
  }

  // ---------------------------------------------------------------------------
  // Projects

  /** GET /api/projects: the active projects, newest first. */
  function ListProjects(s: Store): (r: Response)
    ensures r.status == 200 && r.payload.ProjectListJson?
    ensures forall p :: p in r.payload.projects <==> p in s.projects && p.isActive
    ensures Rows.SortedDesc(r.payload.projects, ProjectCreated)
    ensures multiset(r.payload.projects) <= multiset(s.projects)
  {
    Response(200, ProjectListJson(GetAllProjects(s)))
  }

  /** A text field of the multipart body, with a missing or empty value read as null (`||`). */
  function OrNull(fields: map<string, string>, key: string): (r: Option<string>)
    ensures r.None? <==> key !in fields || fields[key] == ""
    ensures r.Some? ==> r.value == fields[key]
  {
    if key in fields && fields[key] != "" then Some(fields[key]) else None
  }

  /** The project record built from an accepted upload stored as `filename`. */
  function ProjectData(fields: map<string, string>, filename: string): (d: InsertProject)
    ensures d.imageUrl == Upload.ImageUrl(filename) && d.imagePublicId == Some(filename)
    ensures d.isActive == Some(true)
    ensures d.title == OrNull(fields, "title") && d.description == OrNull(fields, "description")
  {
    InsertProject(OrNull(fields, "title"), OrNull(fields, "description"),
                  Upload.ImageUrl(filename), Some(filename), Some(true))
  }

  /**
   * POST /api/projects. `parts` are the file parts of the multipart body,
   * `fields` its text parts; `millis` and `suffix` are the clock reading and
   * random number that name the stored file; `id` and `now` are the
   * generated key and the database clock. A refusal by the upload
   * middleware carries no status and answers 500.
   */
  function CreateProjectRoute(s: Store, parts: seq<Upload.UploadFile>, fields: map<string, string>,
                              millis: nat, suffix: nat, id: Id, now: Timestamp): (r: Step<Response>)
    ensures r.result.status == 201 || r.result.status == 400 || r.result.status == 500
    ensures r.result.status != 201 ==> r.store == s
    ensures var fs := Upload.FileParts(parts);
            && (r.result.status == 400 <==> |fs| == 0)
            && (r.result.status == 201 <==>
                  |fs| == 1 && Upload.CheckFile(fs[0], false).Ok? && GetProjectById(s, id).None?)
            && (|fs| > 0 && Upload.CheckFile(fs[0], false).Err? ==>
                  r.result == Response(500, ErrorPage(Upload.CheckFile(fs[0], false).error)))
            && (|fs| > 1 ==> r.result.status == 500)
    ensures Upload.Receive(parts).Err? ==> r.result == Response(500, ErrorPage(Upload.Receive(parts).error))
    ensures r.result.status == 201 ==>
              && r.result.payload.ProjectJson?
              && var p := r.result.payload.project;
              && var f := Upload.FileParts(parts)[0];
              && r.store == CreateProject(s, id, now, ProjectData(fields, Upload.StoredName(f, millis, suffix))).store
              && p.isActive
              && p.imagePublicId == Some(Upload.StoredName(f, millis, suffix))
              && p.imageUrl == Upload.UploadsPrefix + p.imagePublicId.value
              && p.title == OrNull(fields, "title")
              && p.description == OrNull(fields, "description")
              && p.id == id && p.createdAt == now
              && GetProjectById(r.store, id) == Some(p)
              && p in GetAllProjects(r.store)
    ensures forall k :: k != id ==> GetProjectById(r.store, k) == GetProjectById(s, k)
    ensures r.store.messages == s.messages && r.store.about == s.about
    ensures Valid(s) ==> Valid(r.store)
  {
    match Upload.Receive(parts)
    case Err(e) => Step(s, Response(500, ErrorPage(e)))
    case Ok(None) => Step(s, Response(400, Note("Image file is required")))
    case Ok(Some(f)) =>
      var filename := Upload.StoredName(f, millis, suffix);
      var c := CreateProject(s, id, now, ProjectData(fields, filename));
      match c.result
      case Ok(p) => Step(c.store, Response(201, ProjectJson(p)))
      case Err(_) => Step(s, Response(500, Note("Failed to create project")))
  }

  /** A part whose file name is empty is skipped, so a form carrying only such a part has no image. */
  lemma NamelessPartIsNoImage(s: Store, fields: map<string, string>, millis: nat, suffix: nat, id: Id, now: Timestamp)
    ensures CreateProjectRoute(s, [Upload.UploadFile(Upload.FieldName, "", "image/png", 10)],
                               fields, millis, suffix, id, now).result.status == 400
  {
    assert Upload.FileParts([Upload.UploadFile(Upload.FieldName, "", "image/png", 10)]) == [];
  }

  /** DELETE /api/projects/:id: soft delete, 200 when the row exists and 404 otherwise. */
  function DeleteProjectRoute(s: Store, id: Id): (r: Step<Response>)
    ensures r.result.status == 200 <==> GetProjectById(s, id).Some?
    ensures r.result.status == 404 <==> GetProjectById(s, id).None?
    ensures r.result.status == 200 ==> r.result.payload.Ack? && r.result.payload.success
    ensures r.result.status == 404 ==> r.store == s
    ensures r.store == DeleteProject(s, id).store
  {
    var d := DeleteProject(s, id);
    Step(d.store, FlagResponse(d.result, "Project deleted successfully", "Project not found"))
  }

  // ---------------------------------------------------------------------------
  // Contact messages

  /** GET /api/contact-messages: every message, newest first. */
  function ListMessages(s: Store): (r: Response)
    ensures r.status == 200 && r.payload.MessageListJson?
    ensures multiset(r.payload.contacts) == multiset(s.messages)
    ensures Rows.SortedDesc(r.payload.contacts, MessageCreated)
  {
    Response(200, MessageListJson(GetAllContactMessages(s)))
  }

  /**
   * POST /api/contact-messages. A body that fails the schema falls into the
   * generic error branch and answers 500, not 400.
   */
  function CreateMessageRoute(s: Store, body: Body, id: Id, now: Timestamp): (r: Step<Response>)
    ensures r.result.status == 201 || r.result.status == 500
    ensures r.result.status == 201 <==> HasStrings(body, ContactKeys) && GetContactMessageById(s, id).None?
    ensures r.result.status == 500 ==> r.store == s
    ensures r.result.status == 201 ==>
              r.store == CreateContactMessage(s, id, now, ParseInsertContactMessage(body).value).store
    ensures forall k :: k != id ==> GetContactMessageById(r.store, k) == GetContactMessageById(s, k)
    ensures r.result.status == 201 ==>
              && r.result.payload.MessageJson?
              && var m := r.result.payload.contact;
              && !m.isRead
              && Some(ContactFields(m)) == ParseInsertContactMessage(body)
              && GetContactMessageById(r.store, id) == Some(m)
    ensures r.store.projects == s.projects && r.store.about == s.about
    ensures Valid(s) ==> Valid(r.store)
  {
    match ParseInsertContactMessage(body)
    case None => Step(s, Response(500, Note("Failed to send message")))
    case Some(ins) =>
      var c := CreateContactMessage(s, id, now, ins);
      match c.result
      case Ok(m) => Step(c.store, Response(201, MessageJson(m)))
      case Err(_) => Step(s, Response(500, Note("Failed to send message")))
  }

  /** PATCH /api/contact-messages/:id/read: 200 when the message exists, 404 otherwise. */
  function MarkReadRoute(s: Store, id: Id): (r: Step<Response>)
    ensures r.result.status == 200 <==> GetContactMessageById(s, id).Some?
    ensures r.result.status == 404 <==> GetContactMessageById(s, id).None?
    ensures r.result.status == 200 ==>
              && r.result.payload == Ack(true, "Message marked as read")
              && GetContactMessageById(r.store, id) == Some(GetContactMessageById(s, id).value.(isRead := true))
    ensures r.result.status == 404 ==> r.store == s
    ensures r.store == MarkMessageAsRead(s, id).store
    ensures forall k :: k != id ==> GetContactMessageById(r.store, k) == GetContactMessageById(s, k)
    ensures r.store.projects == s.projects && r.store.about == s.about
    ensures Valid(s) ==> Valid(r.store)
  {
    var d := MarkMessageAsRead(s, id);
    Step(d.store, FlagResponse(d.result, "Message marked as read", "Message not found"))
  }

  /** DELETE /api/contact-messages/:id: hard delete, 200 when the message existed, 404 otherwise. */
  function DeleteMessageRoute(s: Store, id: Id): (r: Step<Response>)
    ensures r.result.status == 200 <==> GetContactMessageById(s, id).Some?
    ensures r.result.status == 404 <==> GetContactMessageById(s, id).None?
    ensures r.result.status == 200 ==> r.result.payload == Ack(true, "Message deleted successfully")
    ensures GetContactMessageById(r.store, id).None?
    ensures r.result.status == 404 ==> r.store == s
    ensures r.store == DeleteContactMessage(s, id).store
    ensures forall k :: k != id ==> GetContactMessageById(r.store, k) == GetContactMessageById(s, k)
    ensures r.store.projects == s.projects && r.store.about == s.about
    ensures Valid(s) ==> Valid(r.store)
  {
    var d := DeleteContactMessage(s, id);
    Step(d.store, FlagResponse(d.result, "Message deleted successfully", "Message not found"))
  }

  // ---------------------------------------------------------------------------
  // About content

  /** GET /api/about-content: the about row, or JSON null when there is none. */
  function GetAboutRoute(s: Store): (r: Response)
    ensures r.status == 200
    ensures r.payload == AboutJson(if |s.about| == 0 then None else Some(s.about[0]))
  {
    Response(200, AboutJson(GetAboutContent(s)))
  }

  /**
   * POST /api/about-content: upserts the about row and answers 200 with it.
   * A body that fails the schema answers 500 and leaves the store alone.
   */
  function SaveAboutRoute(s: Store, body: Body, freshId: Id, now: Timestamp): (r: Step<Response>)
    ensures r.result.status == 200 || r.result.status == 500
    ensures r.result.status == 200 <==> HasStrings(body, AboutKeys)
    ensures r.result.status == 500 ==> r.store == s
    ensures r.result.status == 200 ==>
              && r.result.payload.AboutJson?
              && r.result.payload.about == GetAboutContent(r.store)
              && r.result.payload.about.Some?
              && Some(AboutFields(r.result.payload.about.value)) == ParseInsertAboutContent(body)
              && r.result.payload.about.value.updatedAt == now
    ensures r.result.status == 200 ==>
              r.store == UpdateAboutContent(s, freshId, now, ParseInsertAboutContent(body).value).store
    ensures r.result.status == 200 && |s.about| > 0 ==> r.result.payload.about.value.id == s.about[0].id
    ensures r.store.projects == s.projects && r.store.messages == s.messages
    ensures Valid(s) ==> Valid(r.store)
  {
    match ParseInsertAboutContent(body)
    case None => Step(s, Response(500, Note("Failed to update about content")))
    case Some(ins) =>
      var u := UpdateAboutContent(s, freshId, now, ins);
      Step(u.store, Response(200, AboutJson(Some(u.result))))
  }
}
