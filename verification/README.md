# Portfolio content store — a Dafny model

This project models the server side of a small portfolio website, plus two client helpers.
The server has three tables behind an HTTP API:

- **projects**: uploaded thumbnails. A thumbnail is created by an image upload and soft-deleted by clearing `isActive`. The public listing shows active rows, newest first.
- **contact messages**: created unread from the public contact form. The admin can mark one read or hard-delete it.
- **about content**: a single slot. Saving updates the existing row in place, or inserts one when there is none.

The database engine is replaced by an immutable `Store` value. It holds each table as a sequence of rows in physical order.
Every store operation is a pure function that returns the next store and the operation's result (`Step`).
Around the store, the request handlers are modelled as pure functions from a store and a request to the next store and a response (status and payload).
They cover the upload filter (on the lower-cased MIME type, as the multipart parser delivers it), the skipping of file parts with an empty file name, the 5 MiB cap, the stored file name and URL, the fixed-credential login, and the mapping of store booleans to 200/404.

The client helpers are the navigation bar's `isActive` rule and the thumbnail grid's truncation and skeleton count.

Non-deterministic inputs are parameters:

- the generated uuid of a new row;
- the database clock (`createdAt`, `updatedAt`);
- `Date.now()` and the random suffix used in a stored file name;
- the email-format check of the login schema (`isEmail`).

A generated id that is already taken makes the insert fail, as the primary key would. The route then answers 500.

Files: `base.dfy` (Option/Result), `rows.dfy` (generic table rows: lookup, update, delete, filter, sort), `schema.dfy` (row shapes, defaults, request schemas), `storage.dfy` (the store), `store_properties.dfy` (properties across operations), `upload.dfy` (upload middleware and file names), `routes.dfy` (request handlers), `layout.dfy`, `thumbnail_grid.dfy`.

Two behaviours of the code differ from what a reader of an HTTP API might expect, and the model follows the code:

- A contact message or about-content body that fails its schema is answered with 500, not 400. The parse error falls into the handler's generic `catch`.
- A rejected upload (wrong field, not an image, too large) never reaches the handler. The upload middleware passes its error to the app's error handler, which answers 500 because the error carries no status. The model gives those requests status 500 with the rejection reason.

## Model

| member | source | states |
|---|---|---|
| Schema.NewProject | shared/schema.ts:13-21 | a stored project carries the generated id and the insert time; `isActive` defaults to true unless false is supplied; title, description and public id may be null, the image URL is required |
| Schema.NewContactMessage | shared/schema.ts:23-31 | a stored message always starts unread and carries exactly the four client-supplied fields |
| Schema.NewAboutContent | shared/schema.ts:33-42 | the stored about row carries exactly the six supplied text fields, the generated id and `updatedAt` = now |
| Schema.ParseInsertContactMessage | shared/schema.ts:64-68 | the message schema accepts a body iff name, email, projectType and message are all strings |
| Schema.ContactRoundTrip | shared/schema.ts:64-68 | parsing a client's message body gives back its four fields whatever extra keys (an `isRead`, an `id`) it carries, so a client cannot create a read message |
| Schema.ParseInsertAboutContent | shared/schema.ts:70-73 | the about schema accepts a body iff all six text fields are strings |
| Schema.AboutRoundTrip | shared/schema.ts:70-73 | parsing a client's about body gives back its six fields; `id` and `updatedAt` in the body are ignored |
| Schema.ParseAdminLogin | shared/schema.ts:76-79 | a login body is well formed iff email is a string accepted by the email check and password is a string of length at least 1 |
| Rows.Find | server/storage.ts:42-47 | lookup by primary key finds a row iff one has that key, and with unique keys it is that row |
| Rows.UpdateWhere | server/storage.ts:59-63 | an update by key rewrites exactly the rows with that key and keeps every other row, and the length |
| Rows.FindAfterUpdate | server/storage.ts:58-65 | after an update by key, lookup of that key sees the rewritten row and lookup of any other key is unchanged |
| Rows.FindAfterAppend | server/storage.ts:50-56 | inserting a row under a fresh key makes it findable, leaves all other lookups alone and keeps keys unique |
| Rows.DeleteWhere | server/storage.ts:92-95 | a delete by key leaves no row with that key, keeps every other row and every other lookup, and keeps keys unique |
| Rows.DeleteAbsentKey | server/storage.ts:91-97 | deleting a key no row carries leaves the rows exactly as they were |
| Rows.Where | server/storage.ts:38 | the filter keeps exactly the rows satisfying the condition, as a sub-multiset |
| Rows.SortDesc | server/storage.ts:39 | ordering by a rank descending yields a permutation of the rows, non-increasing in rank |
| Storage.GetAllProjects | server/storage.ts:34-40 | the public listing holds exactly the active rows, ordered by `createdAt` non-increasing |
| Storage.GetProjectById | server/storage.ts:42-48 | lookup by id finds a row, active or not, iff one has that id |
| Storage.CreateProject | server/storage.ts:50-56 | insert succeeds iff the id is fresh; the new row is then found by id and listed when active; other rows and tables are unchanged; the invariant is kept |
| Storage.DeleteProject | server/storage.ts:58-65 | soft delete returns true iff the id exists, active or not; that row becomes inactive and nothing else changes |
| Storage.GetAllContactMessages | server/storage.ts:67-72 | the admin listing is every message, read or unread, ordered by `createdAt` non-increasing |
| Storage.CreateContactMessage | server/storage.ts:74-80 | insert succeeds iff the id is fresh; the new message is unread, carries the supplied fields and appears in the listing; nothing else changes |
| Storage.MarkMessageAsRead | server/storage.ts:82-89 | returns true iff the id exists; only that message's `isRead` becomes true and all other rows are unchanged |
| Storage.DeleteContactMessage | server/storage.ts:91-97 | returns true iff the id existed; afterwards no message has that id and the others are unchanged |
| Storage.GetAboutContent | server/storage.ts:99-105 | the about content is absent iff the table is empty, otherwise a stored row |
| Storage.UpdateAboutContent | server/storage.ts:107-127 | an existing row is rewritten in place under its own id, otherwise one row is inserted; all six fields are replaced, `updatedAt` = now, exactly one row remains and a later read returns it |
| StoreProperties.DeleteProjectIdempotent | server/storage.ts:58-65 | a second soft delete of the same id leaves the store identical and returns the same answer |
| StoreProperties.DeletedProjectHiddenButKept | server/storage.ts:34-65 | after a soft delete the row is gone from the public listing but is still found by id, inactive |
| StoreProperties.ListedUntilDeleted | server/storage.ts:34-65 | a listed project stays listed while other ids are soft-deleted |
| StoreProperties.ListedAfterCreate | server/storage.ts:34-56 | a listed project stays listed when other projects are created |
| StoreProperties.CreateThenMarkRead | server/storage.ts:74-89 | a new message is unread; marking it read succeeds and the admin listing then shows it read |
| StoreProperties.AboutSavedTwice | server/storage.ts:107-127 | two saves leave exactly one row with one id, the second save's fields and the second save's time |
| StoreProperties.Apply | server/storage.ts:50-127 | every write operation keeps ids unique and at most one about row |
| StoreProperties.RunPreservesValid | server/storage.ts:50-127 | every sequence of writes keeps ids unique and at most one about row |
| StoreProperties.AtMostOneAboutRow | server/storage.ts:107-127 | starting from empty tables, no sequence of writes ever produces a second about row |
| Upload.CheckFile | server/routes.ts:23-32 | a file part is accepted iff it is the first file of field `image`, its lower-cased MIME type starts with `image/` and it is at most 5,242,880 bytes; the field check precedes the type check, which precedes the size check |
| Upload.UpperCaseTypeAccepted | server/routes.ts:23-28 | a part declared as `IMAGE/PNG` passes the filter, which sees the type lower-cased |
| Upload.FileParts | server/routes.ts:67 | the file parts the middleware considers are exactly the parts with a non-empty file name; a single part is kept iff it has a name; when every part has one, all of them in order |
| Upload.FilePartsAppend | server/routes.ts:67 | skipping nameless parts distributes over concatenation, so the named parts stay in arrival order, each as often as it arrived |
| Upload.ReceiveFiles | server/routes.ts:67 | the middleware stops at the first refused part and answers that part's own reason, every earlier part having passed; a request with a file already accepted refuses any further file |
| Upload.Receive | server/routes.ts:67 | counting only parts with a non-empty file name: none gives no file; a file is handed on iff there is exactly one and it passes the checks; otherwise the first part's refusal, or `UnexpectedField` for a second file |
| Upload.Decimal | server/routes.ts:19 | a clock reading or random number renders as a non-empty string of decimal digits with no leading zero; zero renders as `0` |
| Upload.DecimalRoundTrip | server/routes.ts:19 | the rendered digits read back as the number |
| Upload.Extname | server/routes.ts:20 | the extension is a suffix of the original name, empty or starting with `.`, with no further `.`; a name without `.` has none, and neither has a dot-file such as `.png` |
| Upload.ExtnameOfPlainName | server/routes.ts:20 | a plain name `stem.ext` with a non-empty stem, no `/` and no `.` in `ext` has extension `.ext`, whatever dots the stem holds |
| Upload.StoredName | server/routes.ts:19-22 | the stored name of an `image` upload starts with `image-` and ends with the original extension |
| Upload.ImageUrl | server/routes.ts:73 | the image URL is `/uploads/` followed by exactly the stored file name |
| Upload.FileNameRoundTrip | server/routes.ts:19-22 | a name `field-millis-suffix.ext` splits back into its field, clock reading, random suffix and extension |
| Upload.FileNameInjective | server/routes.ts:19-22 | distinct clock readings or random suffixes give distinct stored names |
| Upload.StoredNameRoundTrip | server/routes.ts:19-22 | every accepted upload's stored name reads back as `image`, the clock reading, the suffix and the original extension |
| Routes.Login | server/routes.ts:41-54 | 200 iff email and password equal the fixed pair (and that email passes the format check); 400 iff the body fails the login schema; 401 for any other well-formed pair |
| Routes.FlagResponse | server/routes.ts:93-99 | a store answer of true gives 200 with `success: true`, false gives 404 |
| Routes.ListProjects | server/routes.ts:57-65 | the listing answers 200 with exactly the active projects, each at most as often as it is stored, ordered by `createdAt` non-increasing |
| Routes.OrNull | server/routes.ts:75-76 | a missing or empty text field becomes null, any other value is kept |
| Routes.ProjectData | server/routes.ts:73-80 | the project record has `imageUrl` = `/uploads/` + file name, `imagePublicId` = file name, `isActive` = true, and null for missing or empty title and description |
| Routes.CreateProjectRoute | server/routes.ts:67-88 | over the parts with a file name: 400 iff there is none; 500 with the first part's reason when it is refused (wrong field, non-image, too large) and 500 for a second file; 201 iff exactly one accepted file and a fresh id; only 201 changes the store, by exactly the insert of the record built from the upload, and no other project is changed |
| Routes.NamelessPartIsNoImage | server/routes.ts:67-71 | a form whose only file part has an empty file name is answered 400, as if no image were sent |
| Routes.DeleteProjectRoute | server/routes.ts:90-104 | 200 with `success: true` iff the project exists, 404 otherwise with the store unchanged |
| Routes.ListMessages | server/routes.ts:107-115 | the admin listing answers 200 with every message, ordered by `createdAt` non-increasing |
| Routes.CreateMessageRoute | server/routes.ts:117-126 | 201 iff the body passes the schema and the id is fresh, with an unread message carrying the body's fields, the store changed by exactly that insert and no other message changed; a body failing the schema answers 500 and leaves the store alone |
| Routes.MarkReadRoute | server/routes.ts:128-142 | 200 iff the message exists and it is then read; 404 otherwise with the store unchanged; no other message and no other table changes, and the invariant is kept |
| Routes.DeleteMessageRoute | server/routes.ts:144-158 | 200 iff the message existed; afterwards no message has that id; 404 leaves the store unchanged; no other message and no other table changes, and the invariant is kept |
| Routes.GetAboutRoute | server/routes.ts:161-169 | answers 200 with the about row, or null when there is none |
| Routes.SaveAboutRoute | server/routes.ts:171-180 | 200 iff the body passes the schema, the store then changed exactly as the about upsert changes it: an existing row keeps its id, and the single about row holds the body's fields and time; a failing body answers 500 and leaves the store alone |
| Layout.IsActive | client/src/components/Layout.tsx:24-28 | the root link is active iff the location is exactly `/`; any other link is active iff the location starts with its href; otherwise false |
| Layout.PrefixNotSegment | client/src/components/Layout.tsx:26 | the match is a plain prefix: any location starting with `/about`, such as `/aboutus`, activates the About link |
| Layout.AtMostOneActive | client/src/components/Layout.tsx:17-28 | for every location, at most one of the four fixed links is active |
| ThumbnailGrid.SliceTo | client/src/components/ThumbnailGrid.tsx:69 | slicing from 0 gives a prefix of length min(end, n), or max(n + end, 0) for a negative end |
| ThumbnailGrid.DisplayProjects | client/src/components/ThumbnailGrid.tsx:69 | the shown list is a prefix of the projects in their order; the whole list when the limit is absent or 0; min(limit, n) items for a positive limit |
| ThumbnailGrid.SkeletonCount | client/src/components/ThumbnailGrid.tsx:38 | while loading, `limit` skeleton cards when the limit is truthy (none if negative), otherwise 6 |
| ThumbnailGrid.Render | client/src/components/ThumbnailGrid.tsx:35-69 | loading shows skeletons, a failed query the error state, an absent or empty list the empty state, and otherwise the grid of the displayed projects |
| ThumbnailGrid.PositiveLimitShowsPrefix | client/src/components/ThumbnailGrid.tsx:69 | with a positive limit the grid shows exactly the first min(limit, n) projects |
| ThumbnailGrid.NoLimitShowsAll | client/src/components/ThumbnailGrid.tsx:69 | with no limit or limit 0 the grid shows the whole list unchanged |

## Left out

- The Postgres/drizzle engine, SQL and connection handling: replaced by the in-memory `Store`. Database failures, which the handlers answer with 500, are not modelled; the only modelled store failure is a duplicate generated id.
- Concurrency: the model is sequential. The check-then-insert race in `updateAboutContent` under two concurrent first saves, which could leave two about rows, is outside it.
- `Date.now()`, `Math.random()`, `new Date()`, `defaultNow()` and `gen_random_uuid()`: these are parameters. The model does not restrict the random suffix to the range 0..1e9.
- The email-format regex of the login schema: an abstract `isEmail` parameter.
- Writing the file to disk, creating the upload directory and serving `/uploads` statically: file-system I/O. Only the accept/refuse decision, the stored name and the URL are modelled.
- Upload.Extname: models Node's `path.extname` on the last `/`-separated segment of the delivered file name.
- Multipart bodies are given as a list of file parts plus a map of text fields. Repeated text fields, which arrive as arrays, and busboy's other limits are not modelled.
- The Content-Type of a part is taken as already parsed to `type/subtype`. A missing or malformed header, which the parser replaces by its default type, and parameters such as `; charset=` are not modelled. Lower-casing covers ASCII letters only.
- The parser's reduction of a declared file name to its last path segment (after the last `/` or `\`, with `.` and `..` becoming empty) is not modelled: `originalname` is the name as delivered, so a declared `shots/` or `..` must be given as the empty name the parser delivers.
- Upload.CheckFile: accepts a file of exactly 5,242,880 bytes and refuses only larger ones. Whether the parser's size limit fires when the byte count reaches the cap or only when it exceeds it depends on the parser's version, which the model does not fix.
- Request bodies are modelled as a JSON object. A non-object body is not modelled.
- `insertProjectSchema`: the upload route never calls it. It builds the record itself, and that record is what `ProjectData` models. The `InsertProject` shape records which columns a client may not supply.
- The `users` table, its insert schema and the projects/contact-messages `relations`: never read or written.
- ThumbnailGrid.DisplayProjects: fractional and NaN limits are not modelled (the limit is an integer).
- React rendering, react-query, toasts, forms, scroll-reveal animation, the loading screen and the admin page's login toggle: presentation only.
