/**
 * Row shapes of the three content tables, their column defaults, and the
 * request-body schemas that decide which columns a client may supply.
 */
module Schema {
  import opened Base

  /** Primary keys are generated uuid strings. */
  type Id = string

  /** A point in time, in milliseconds. */
  type Timestamp = int

  /** A row of `projects`: one uploaded thumbnail. Only `imageUrl` is required. */
  datatype Project = Project(
    id: Id,
    title: Option<string>,
    description: Option<string>,
    imageUrl: string,
    imagePublicId: Option<string>,
    createdAt: Timestamp,
    isActive: bool)

  /** A row of `contact_messages`. All four text columns are required. */
  datatype ContactMessage = ContactMessage(
    id: Id,
    name: string,
    email: string,
    projectType: string,
    message: string,
    createdAt: Timestamp,
    isRead: bool)

  /** A row of `about_content`. All six text columns are required. */
  datatype AboutContent = AboutContent(
    id: Id,
    title: string,
    description: string,
    experience: string,
    expertise: string,
    thumbnailsCreated: string,
    happyClients: string,
    updatedAt: Timestamp)

  /** The insert shape of a project: `id` and `createdAt` are not client-supplied, `isActive` may be left to its default. */
  datatype InsertProject = InsertProject(
    title: Option<string>,
    description: Option<string>,
    imageUrl: string,
    imagePublicId: Option<string>,
    isActive: Option<bool>)

  /** The insert shape of a contact message: `id`, `createdAt` and `isRead` are not client-supplied. */
  datatype InsertContactMessage = InsertContactMessage(
    name: string,
    email: string,
    projectType: string,
    message: string)

  /** The insert shape of the about content: `id` and `updatedAt` are not client-supplied. */
  datatype InsertAboutContent = InsertAboutContent(
    title: string,
    description: string,
    experience: string,
    expertise: string,
    thumbnailsCreated: string,
    happyClients: string)

  /** A parsed admin login request. */
  datatype AdminLogin = AdminLogin(email: string, password: string)

  /** A decoded JSON value of a request body. */
  datatype Json =
    | JNull
    | JBool(b: bool)
    | JNumber(n: int)
    | JString(s: string)
    | JArray(items: seq<Json>)
    | JObject(fields: map<string, Json>)

  /** A JSON object request body. */
  type Body = map<string, Json>

  /** The string under `key`, when present and a string. */
  function StringField(body: Body, key: string): (r: Option<string>)
    ensures r.Some? <==> key in body && body[key].JString?
    ensures r.Some? ==> body[key] == JString(r.value)
  {
    if key in body && body[key].JString? then Some(body[key].s) else None
  }

  // ---------------------------------------------------------------------------
  // Rows built by an insert: column defaults applied

  /** The row an insert of `ins` stores, given the generated id and the database clock. */
  function NewProject(id: Id, now: Timestamp, ins: InsertProject): (p: Project)
    ensures p.id == id && p.createdAt == now
    ensures p.imageUrl == ins.imageUrl
    ensures p.title == ins.title && p.description == ins.description
    ensures p.imagePublicId == ins.imagePublicId
    ensures p.isActive <==> ins.isActive != Some(false)
  {
    Project(id, ins.title, ins.description, ins.imageUrl, ins.imagePublicId, now,
            match ins.isActive case Some(b) => b case None => true)
  }

  /** The row an insert of `ins` stores: a message always starts out unread. */
  function NewContactMessage(id: Id, now: Timestamp, ins: InsertContactMessage): (m: ContactMessage)
    ensures !m.isRead
    ensures m.id == id && m.createdAt == now
    ensures ContactFields(m) == ins
  {
    ContactMessage(id, ins.name, ins.email, ins.projectType, ins.message, now, false)
  }

  /** The client-supplied part of a stored message. */
  function ContactFields(m: ContactMessage): InsertContactMessage {
    InsertContactMessage(m.name, m.email, m.projectType, m.message)
  }

  /** The row an insert of `ins` stores. */
  function NewAboutContent(id: Id, now: Timestamp, ins: InsertAboutContent): (a: AboutContent)
    ensures a.id == id && a.updatedAt == now
    ensures AboutFields(a) == ins
  {
    AboutContent(id, ins.title, ins.description, ins.experience, ins.expertise,
                 ins.thumbnailsCreated, ins.happyClients, now)
  }

  /** The client-supplied part of the stored about content. */
  function AboutFields(a: AboutContent): InsertAboutContent {
    InsertAboutContent(a.title, a.description, a.experience, a.expertise,
                       a.thumbnailsCreated, a.happyClients)
  }

  // ---------------------------------------------------------------------------
  // Request-body schemas. Unknown keys are stripped, so only the listed keys matter.

  const ContactKeys: set<string> := {"name", "email", "projectType", "message"}

  const AboutKeys: set<string> :=
    {"title", "description", "experience", "expertise", "thumbnailsCreated", "happyClients"}

  /** Every key in `keys` holds a string in `body`. */
  predicate HasStrings(body: Body, keys: set<string>) {
    forall k :: k in keys ==> StringField(body, k).Some?
  }

  /** `insertContactMessageSchema.parse`: the four text columns, each a required string. */
  function ParseInsertContactMessage(body: Body): (r: Option<InsertContactMessage>)
    ensures r.Some? <==> HasStrings(body, ContactKeys)
  {
    match (StringField(body, "name"), StringField(body, "email"),
           StringField(body, "projectType"), StringField(body, "message"))
    case (Some(n), Some(e), Some(t), Some(m)) => Some(InsertContactMessage(n, e, t, m))
    case _ => None
  }

  /** The JSON body a client sends for `m`. */
  function ContactToJson(m: InsertContactMessage): Body {
    map["name" := JString(m.name), "email" := JString(m.email),
        "projectType" := JString(m.projectType), "message" := JString(m.message)]
  }

  /**
   * Parsing the body a client built from `m` gives back `m`, whatever other
   * keys (an `isRead`, an `id`) the body also carries.
   */
  lemma ContactRoundTrip(m: InsertContactMessage, extra: Body)
    ensures ParseInsertContactMessage(extra + ContactToJson(m)) == Some(m)
  {
    var b := extra + ContactToJson(m);
    assert StringField(b, "name") == Some(m.name);
    assert StringField(b, "email") == Some(m.email);
    assert StringField(b, "projectType") == Some(m.projectType);
    assert StringField(b, "message") == Some(m.message);
  }

  /** `insertAboutContentSchema.parse`: the six text columns, each a required string. */
  function ParseInsertAboutContent(body: Body): (r: Option<InsertAboutContent>)
    ensures r.Some? <==> HasStrings(body, AboutKeys)
  {
    if HasStrings(body, AboutKeys) then
      Some(InsertAboutContent(
        StringField(body, "title").value, StringField(body, "description").value,
        StringField(body, "experience").value, StringField(body, "expertise").value,
        StringField(body, "thumbnailsCreated").value, StringField(body, "happyClients").value))
    else None
  }

  /** The JSON body a client sends for `a`. */
  function AboutToJson(a: InsertAboutContent): Body {
    map["title" := JString(a.title), "description" := JString(a.description),
        "experience" := JString(a.experience), "expertise" := JString(a.expertise),
        "thumbnailsCreated" := JString(a.thumbnailsCreated),
        "happyClients" := JString(a.happyClients)]
  }

  /** Parsing the body a client built from `a` gives back `a`, whatever other keys it carries. */
  lemma AboutRoundTrip(a: InsertAboutContent, extra: Body)
    ensures ParseInsertAboutContent(extra + AboutToJson(a)) == Some(a)
  {
    var b := extra + AboutToJson(a);
    assert StringField(b, "title") == Some(a.title);
    assert StringField(b, "description") == Some(a.description);
    assert StringField(b, "experience") == Some(a.experience);
    assert StringField(b, "expertise") == Some(a.expertise);
    assert StringField(b, "thumbnailsCreated") == Some(a.thumbnailsCreated);
    assert StringField(b, "happyClients") == Some(a.happyClients);
  }

  /**
   * `adminLoginSchema.parse`: `email` a string that `isEmail` accepts (the
   * email format check, kept abstract) and `password` a string of length at least 1.
   */
  function ParseAdminLogin(body: Body, isEmail: string -> bool): (r: Option<AdminLogin>)
    ensures r.Some? <==>
              && StringField(body, "email").Some? && isEmail(StringField(body, "email").value)
              && StringField(body, "password").Some? && |StringField(body, "password").value| >= 1
    ensures r.Some? ==>
              body["email"] == JString(r.value.email) && body["password"] == JString(r.value.password)
  {
    match (StringField(body, "email"), StringField(body, "password"))
    case (Some(e), Some(p)) =>
      if isEmail(e) && |p| >= 1 then Some(AdminLogin(e, p)) else None
    case _ => None
  }
}
