# Career-guidance admissions: the application workflow and its tables

This project models the core of a career-guidance web application. In it,
institutions publish faculties and courses. Students submit applications,
with an optional result file. Institute staff then mark each application
Accepted, Rejected or Pending, and publish admissions.

The model has two halves:

- **The backend** (`backend/server.js`) is the class `Server.Store`. It holds
  five tables (institutions, faculties, courses, applications, users) as
  sequences of rows and has one method per REST route. Each method returns
  the route's reply, an HTTP code and the message or error text. The queries
  the routes run are pure functions in module `Tables`: the `WHERE` filters,
  the credential match, the status validation, the `UPDATE ... SET status`
  rewrite, and the three-way inner join with its derived `pictureUrl`.
- **The institute dashboard** (`src/Institute/InstituteDashboard.js`) is the
  class `Dashboard.Component`. It holds the component's state fields, and its
  methods apply what the handlers and effects do once a request settles. The
  list transformations and predicates behind them are functions in module
  `Dashboard`: the optimistic status rewrite, the delete-by-id filters, the
  `trim` guard, the button-visibility rule and `getImageSrc`.

Module `Workflow` relates the two halves. After a successful status update,
the dashboard's rewritten list is exactly what the store would now return.
After a failed update (in practice a 500 from the store, since the
dashboard's buttons only send valid statuses for listed ids), the dashboard
rewrites its list anyway, so the two diverge. Five harness methods walk
the submit, retrieve, accept and back-to-Pending sequence through the
store's routes, each on a fresh store: a submission that is retrieved, one
answered 200 whose row never lands, an accept followed by a return to
Pending, an update for an unknown id, and an update with an unknown
status. Module `Sequences` holds the generic filter, map and first-match
helpers.

What lies outside the model comes in as a parameter:

- `storeError`: the error, if any, that the database driver hands a query's
  callback. With an error, the route answers 500 and nothing changes.
- `executeThrows` and `inserted`: the two outcomes of `/apply`'s insert.
  The first is whether the awaited `db.execute` rejects, which decides
  between the 500 and the 200 reply. The second is whether the row lands.
  The model ties neither to the other.
- `freshId`: the auto-increment id of an insert. It is required not to be a
  key of its table yet.
- `defaultStatus`: the status column's default. The schema is not part of
  this model.
- The fetched rows and the `resolved` flag of the dashboard's requests.

Ids are primary keys. `Store.Valid()` says no two rows of each of the four
keyed tables carry the same id, not even two identical rows. The retrieval
route is modelled twice: `Tables.JoinFrom` evaluates the three inner joins
as SQL does, one result row per combination of partner rows, and
`Tables.Retrieve` looks each partner row up. Under `Valid()` each join has
one partner row or none, and the two agree.

`Store.UpdateApplicationStatus` treats `affectedRows` as the number of
matched rows. The MySQL driver's default connection flags include
FOUND_ROWS, so re-setting a status to its current value still succeeds.

## Model

| member | source | states |
|---|---|---|
| `Server.Store.Register` | backend/server.js:39-47 | a registration appends exactly one user row with the given fields and answers 200, or answers 500 and leaves the users table unchanged |
| `Server.Store.Login` | backend/server.js:48-59 | the answer is 200 exactly when some user row matches email, password and role at once; otherwise it is 400 "Invalid credentials", or 500 when the query fails |
| `Tables.LoginReply` | backend/server.js:50-58 | the login answer is 200 iff the store answers and a row matches all three fields; it is 400 iff no row matches them together; it is never anything but 200, 400 "Invalid credentials" or 500 "Failed to log in" |
| `Tables.RegisterThenLogin` | backend/server.js:39-58 | after a user row is registered, logging in with its email, password and role succeeds |
| `Server.Store.ListInstitutions` | backend/server.js:64-74 | the listing is the whole institutions table, or 500 with no rows |
| `Server.Store.ListFaculties` | backend/server.js:77-88 | the listing holds only faculties of the institution, drawn from the table, in the order the filter yields; 500 with no rows on error |
| `Tables.FacultiesOfExactly` | backend/server.js:79 | a faculty is listed iff it is in the table and belongs to the institution |
| `Server.Store.ListCourses` | backend/server.js:91-97 | the listing holds only courses of the faculty, drawn from the table; on error the 500 reply carries the driver's message |
| `Tables.CoursesOfExactly` | backend/server.js:93 | a course is listed iff it is in the table and belongs to the faculty |
| `Server.Store.AddInstitution` | backend/server.js:100-111 | one row is appended under the fresh id and echoed back as `{id, name}`, with the primary key kept; on error nothing is added and nothing is echoed |
| `Server.Store.AddFaculty` | backend/server.js:114-125 | one faculty row is appended, with no check that the institution exists; on error the table is unchanged |
| `Server.Store.AddCourse` | backend/server.js:128-134 | one course row is appended and echoed as `{id, name}`, with no check that the faculty exists; on error the reply carries the driver's message and the table is unchanged |
| `Server.Store.DeleteInstitution` | backend/server.js:137-143 | every institution row with the id is removed, the reply is always "Institution deleted", and no other table changes |
| `Server.Store.DeleteFaculty` | backend/server.js:146-152 | every faculty row with the id is removed and its courses stay |
| `Tables.DeleteFacultyRowsExactly` | backend/server.js:148 | after the delete, a faculty row survives iff it was in the table and does not carry the id |
| `Server.Store.DeleteCourse` | backend/server.js:155-161 | every course row with the id is removed and the reply is always "Course deleted" |
| `Server.Store.Apply` | backend/server.js:164-182 | the reply is 500 "Database error" iff the awaited `execute` rejects and 200 otherwise, whether or not the insert lands; a landing insert appends one application row with the submitted fields, the uploaded path or NULL, and the column default for status, without checking the references |
| `Tables.RetrieveAfterInsert` | backend/server.js:164-219 | after a submission, the institution's retrieval grows by exactly the new row, enriched, when its three references resolve, and is unchanged otherwise |
| `Server.Store.InstitutionApplications` | backend/server.js:185-219 | the route returns the three-way inner join of the current tables for the institution, which under the primary keys is the lookup-based retrieval, or 500 with no rows |
| `Tables.PartnersUnique` | backend/server.js:196-201 | under the primary keys, each join's partner rows are exactly the row the lookup finds, or none |
| `Tables.JoinedRowsUnique` | backend/server.js:188-201 | under the primary keys, the joins yield exactly one enriched row for an application whose three references resolve, and none otherwise |
| `Tables.JoinFromIsRetrieveFrom` | backend/server.js:188-203 | under the primary keys, the SQL join over any list of applications gives the same rows, in the same order, as the lookup-based retrieval |
| `Tables.PictureUrl` | backend/server.js:212-215 | `pictureUrl` is present iff the stored path is truthy, and then it is the uploads prefix followed by exactly that path |
| `Tables.Enrich` | backend/server.js:188-193 | a result row keeps every application column and carries the names of an institution, faculty and course row whose ids are the application's references, plus its picture URL |
| `Tables.RetrieveFromSound` | backend/server.js:188-203 | every retrieved row is the enrichment of an application in the table, of that institution, with all three references resolving |
| `Tables.RetrieveFromComplete` | backend/server.js:188-203 | every application of the institution whose three references resolve is retrieved |
| `Tables.RetrieveExactly` | backend/server.js:188-203 | an application appears in the retrieval iff it belongs to the institution and its institution, faculty and course rows all exist; a dangling reference silently drops it |
| `Tables.RetrieveFromEmpty` | backend/server.js:188-203 | an institution with no joinable application, in particular one with no applications at all, yields an empty list |
| `Tables.RetrieveFromAppend` | backend/server.js:188-215 | the retrieval of two stretches of the table is the retrieval of the first followed by that of the second, so rows keep table order |
| `Tables.RetrieveFromSameJoins` | backend/server.js:196-201 | the joins read only the institutions, faculties and courses tables |
| `Tables.RetrieveAfterInstitutionDeleted` | backend/server.js:137-203 | once an institution is deleted, its retrieval is empty even though its applications remain in the table |
| `Tables.RetrieveAfterFacultyDeleted` | backend/server.js:146-203 | once a faculty is deleted, none of its applications appears in any institution's retrieval |
| `Tables.CheckStatus` | backend/server.js:226-234 | a status passes iff it is present and one of Accepted, Rejected, Pending; a missing or empty one is refused with 400 "Status is required" and any other value with 400 "Invalid status" |
| `Server.Store.UpdateApplicationStatus` | backend/server.js:222-249 | a refused status, a store error or an id no row carries answers 400, 500 or 404 and leaves the table unchanged; otherwise the reply is 200 and every row with the id takes the new status, whatever its old one |
| `Tables.SetStatusAt` | backend/server.js:237 | the update keeps the table's length and order, gives the new status to each row with the id, and leaves every other column and every other row unchanged |
| `Tables.MatchedRows` | backend/server.js:244 | the affected-row count is zero exactly when no row carries the id |
| `Tables.SetStatusNoMatch` | backend/server.js:237-246 | an update that matches no row changes nothing |
| `Tables.SetStatusOverwrites` | backend/server.js:237-247 | a second update overwrites the first, so any status may follow any other (Accepted back to Pending) and repeating an update is idempotent |
| `Tables.SetStatusKeepsKeys` | backend/server.js:237 | the update keeps the application id a primary key |
| `Server.Store.ReleaseAdmissions` | backend/server.js:251-266 | release changes no table (the method may modify nothing) and answers 200 "Admissions released successfully" iff an institution id is present, else 400 |
| `Dashboard.Component.constructor` | src/Institute/InstituteDashboard.js:5-15 | every list starts empty, nothing is selected and both inputs are empty |
| `Dashboard.Component.InstitutionsLoaded` | src/Institute/InstituteDashboard.js:20-25 | on mount the institutions list takes the fetched rows; the route's plain-text error cannot be parsed, so a failed fetch leaves the list as it was |
| `Dashboard.Component.SelectInstitution` | src/Institute/InstituteDashboard.js:28-44 | clearing the institution empties the faculties and applications lists; a selection installs each fetched list, and a failed fetch leaves that list as it was |
| `Dashboard.Component.SelectFaculty` | src/Institute/InstituteDashboard.js:47-56 | clearing the faculty empties the courses list; a selection installs the fetched courses |
| `Dashboard.Component.AddFaculty` | src/Institute/InstituteDashboard.js:59-68 | no request is made iff the entered name is blank; otherwise the request carries the selected institution and the name as entered |
| `Dashboard.Component.AddCourse` | src/Institute/InstituteDashboard.js:78-87 | no request is made iff the entered name is blank; otherwise the request carries the selected faculty and the name as entered |
| `Dashboard.Component.FacultyAdded` | src/Institute/InstituteDashboard.js:69-74 | once the add resolves, the input is cleared and the faculties take the reloaded listing if it arrives |
| `Dashboard.Component.CourseAdded` | src/Institute/InstituteDashboard.js:88-93 | once the add resolves, the input is cleared and the courses take the reloaded listing if it arrives |
| `Dashboard.TrimStart` | src/Institute/InstituteDashboard.js:60 | the result is a suffix of the input, everything dropped is whitespace, and the result does not start with whitespace |
| `Dashboard.TrimEnd` | src/Institute/InstituteDashboard.js:79 | the result is a prefix of the input, everything dropped is whitespace, and the result does not end with whitespace |
| `Dashboard.BlankIffAllWhitespace` | src/Institute/InstituteDashboard.js:60 | the guard `!name.trim()` holds exactly when the name is empty or made only of whitespace |
| `Dashboard.Component.FacultyDeleted` | src/Institute/InstituteDashboard.js:97-101 | the faculties list becomes the delete-by-id filter of the old list |
| `Dashboard.WithoutFacultyExactly` | src/Institute/InstituteDashboard.js:99 | an entry survives iff it was listed and does not carry the id, and the filter of a concatenation is the concatenation of the filters, so order is kept |
| `Dashboard.FacultyDeleteMirrorsStore` | src/Institute/InstituteDashboard.js:99 | filtering the faculty out of an institution's listing gives the listing of the table after the backend's delete |
| `Dashboard.Component.CourseDeleted` | src/Institute/InstituteDashboard.js:103-107 | the courses list becomes the delete-by-id filter of the old list |
| `Dashboard.WithoutCourseExactly` | src/Institute/InstituteDashboard.js:105 | an entry survives iff it was listed and does not carry the id, and order is kept |
| `Dashboard.CourseDeleteMirrorsStore` | src/Institute/InstituteDashboard.js:105 | filtering the course out of a faculty's listing gives the listing of the table after the backend's delete |
| `Dashboard.WithStatus` | src/Institute/InstituteDashboard.js:116-118 | the entries with the id get the new status, every other entry and every other field is unchanged, and length and order are kept |
| `Dashboard.Component.StatusUpdated` | src/Institute/InstituteDashboard.js:109-121 | the list is rewritten whenever the request resolved, whatever the server answered, and is left alone only on a network failure |
| `Workflow.RetrieveFromAfterSetStatus` | src/Institute/InstituteDashboard.js:116-118 | retrieving after the backend's update equals the dashboard's rewrite of the retrieval before it |
| `Workflow.OptimisticUpdateMatchesStore` | src/Institute/InstituteDashboard.js:116-118 | after a successful update, the dashboard's rewritten list is exactly what the backend now returns for the institution |
| `Workflow.RefusedUpdateDiverges` | src/Institute/InstituteDashboard.js:109-120 | when the update fails (a 500 from the store) and the backend keeps its table, the rewritten list no longer equals a fresh retrieval |
| `Dashboard.Component.PublishAdmissions` | src/Institute/InstituteDashboard.js:123-136 | with no institution selected no request is sent; otherwise the release request names the selected institution |
| `Dashboard.Component.AdmissionsPublished` | src/Institute/InstituteDashboard.js:138-148 | a 2xx reply shows its message, or the default text when it has none; any other reply leaves the message unchanged |
| `Dashboard.VisibleActionsExactly` | src/Institute/InstituteDashboard.js:414-461 | the button that sets status S is shown iff the current status is not S; a valid status shows exactly two buttons and an unknown status shows all three |
| `Dashboard.ImageSrc` | src/Institute/InstituteDashboard.js:155-160 | the image source is present iff both the file path and the file type are truthy, and then it is the server origin followed by exactly the path |

## Left out

- Infrastructure: the MySQL connection and its credentials, the SQL engine, multer's file storage, and the Express, CORS and static-file setup (backend/server.js:1-33, 290-292). An uploaded file is only the optional path string the submission stores.
- Database failures are the `storeError` parameter. `/apply` is the exception: it awaits a call on the driver's callback-style connection, and what that await observes of the insert is driver behaviour outside this model. So `Store.Apply` takes the reply and whether the row lands as two independent outcomes, all four combinations allowed.
- The status column's default is the `defaultStatus` parameter. The schema is not part of this model, so the model does not claim that a new application starts as Pending.
- Auto-increment ids are the `freshId` parameter, required to be new in its table. Auto-increment never reuses an id; the model does not capture that.
- The `throw err` branches of the three delete routes crash the process. They are not modelled, so the deletes always succeed.
- The second `/releaseAdmissions` registration (backend/server.js:269-284) is never reached. The first one's 500 branch cannot fire, because nothing in its `try` throws.
- `Server.Store.ReleaseAdmissions`: the 400 branch is modelled as written. Express never matches the route with an empty `:institutionId`, so in practice the route always answers 200.
- Route parameters and JSON ids reach MySQL as strings and are coerced there. The model takes ids as integers. The dashboard's selections stay the raw `<select>` strings it sends.
- The request body's `status` is an optional string. Non-string JSON values (numbers, booleans) are not modelled.
- SQL leaves the order of the joined rows unspecified. The model returns them in table order.
- An inner join over duplicate ids would repeat rows. `Store.Valid()` keeps ids unique, and `Store.InstitutionApplications` relies on it; a table with a repeated id is not modelled.
- `Dashboard.IsTrimmable` lists the whitespace and line-terminator characters of ECMAScript `trim`, with the space separators as of current Unicode. A later Unicode version may add more.
- `Dashboard.Component.SelectInstitution`: when `/applications/institution/:id` fails, its 500 reply is a JSON object (backend/server.js:208). `res.json()` parses it, and the handler installs `{error: ...}` as the applications list (src/Institute/InstituteDashboard.js:37). The render's `.map` (line 394) then fails. The fetched parameter is only a row list or a failed fetch, so the model does not capture that state. The `/faculties` error is plain text, fails to parse and leaves the list as it was, which the model does capture.
- `Dashboard.Component.SelectFaculty`: likewise, the 500 reply of `/courses/:id` is a JSON object (backend/server.js:94). It is installed as the courses list (src/Institute/InstituteDashboard.js:51) and breaks the render's `.map` (line 340). The model does not capture that state.
- `Dashboard.Component.CourseAdded`: the reload from `/courses/:id` installs the same JSON error object (src/Institute/InstituteDashboard.js:92). The model does not capture that state.
- React runs the selection effects only when a selection actually changes. `Component.SelectInstitution` and `Component.SelectFaculty` run them on every selection.
- `getImageSrc` is defined but never called in the dashboard. It is modelled on its own.
- Rendering, styling, `alert`, `navigate` and `localStorage`, the loading and error flags of the applications fetch, and the asynchronous fetch/promise machinery. Responses enter the model as parameters of the settled-state methods.
- The UI-only files src/Admin/AdminDashboard.js, src/Student/StudentDashboard.js, src/Login.js, src/Admin/AdminProfile.js, src/App.js and src/HomePage.js. They contain rendering, routing and form state only. StudentDashboard calls a `/requirements/:id` route that the backend does not define.
- `Tables.MatchingUser` and `Tables.LoginReply` compare strings exactly. The SQL `WHERE` at backend/server.js:50 compares them under the columns' collation, which in MySQL's defaults ignores letter case and trailing spaces, so the store may accept logins the model refuses.
- Passwords are compared in plain text, exactly as the source does. The model makes no security claim.
- Concurrent requests and last-writer-wins races between them are not modelled. Each route is one atomic transition of the store.
