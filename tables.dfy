/** The rows of the five tables behind the REST routes, the replies the
    routes send, and the pure queries the routes run over the tables: the
    `WHERE` filters, the credential match, the status validation, the
    `UPDATE ... SET status` rewrite and the three-way inner join that
    enriches an institution's applications. */
module Tables {
  import opened Sequences

  datatype Institution = Institution(id: int, name: string)
  datatype Faculty = Faculty(id: int, institutionId: int, name: string)
  datatype Course = Course(id: int, facultyId: int, name: string)

  /** A row of `applications`; `resultFile` is the stored upload path, NULL
      when no file came with the submission. */
  datatype Application = Application(
    id: int, name: string, email: string, phone: string,
    institutionId: int, facultyId: int, courseId: int,
    resultFile: Option<string>, status: string)

  datatype User = User(email: string, password: string, username: string,
                       role: string, instituteName: Option<string>)

  /** All five tables at one moment. */
  datatype Db = Db(institutions: seq<Institution>, faculties: seq<Faculty>,
                   courses: seq<Course>, applications: seq<Application>,
                   users: seq<User>)

  /** An application as the institution-scoped retrieval returns it: all its
      columns plus the three joined names and the derived picture URL. */
  datatype Enriched = Enriched(app: Application, institutionName: string,
                               facultyName: string, courseName: string,
                               pictureUrl: Option<string>)

  /** An HTTP status code and the message or error text of the JSON body. */
  datatype Reply = Reply(code: int, text: string)

  datatype Checked<T> = Ok(value: T) | Refused(reply: Reply)

  const Accepted: string := "Accepted"
  const Rejected: string := "Rejected"
  const Pending: string := "Pending"
  /** The closed set the status update validates against. */
  const ValidStatuses: seq<string> := [Accepted, Rejected, Pending]

  const UploadsPrefix: string := "http://localhost:5000/uploads/"

  /** JavaScript truthiness of an optional string: present and non-empty. */
  predicate Truthy(s: Option<string>)
  {
    s.Some? && s.value != ""
  }

  // ----- primary keys ------------------------------------------------------

  function InstitutionKey(i: Institution): int { i.id }
  function FacultyKey(f: Faculty): int { f.id }
  function CourseKey(c: Course): int { c.id }
  function ApplicationKey(a: Application): int { a.id }

  /** Each id column is a primary key: no two rows of a table carry the
      same id. */
  ghost predicate KeysUnique(db: Db)
  {
    && KeysDistinct(db.institutions, InstitutionKey)
    && KeysDistinct(db.faculties, FacultyKey)
    && KeysDistinct(db.courses, CourseKey)
    && KeysDistinct(db.applications, ApplicationKey)
  }

  // ----- catalog queries ---------------------------------------------------

  /** `SELECT * FROM faculties WHERE institution_id = ?` */
  function FacultiesOf(faculties: seq<Faculty>, institutionId: int): seq<Faculty>
  {
    Filter(faculties, (f: Faculty) => f.institutionId == institutionId)
  }

  /** `SELECT * FROM courses WHERE faculty_id = ?` */
  function CoursesOf(courses: seq<Course>, facultyId: int): seq<Course>
  {
    Filter(courses, (c: Course) => c.facultyId == facultyId)
  }

  /** The listing returns exactly the faculties of the institution, in table
      order. */
  lemma FacultiesOfExactly(faculties: seq<Faculty>, institutionId: int, f: Faculty)
    ensures f in FacultiesOf(faculties, institutionId)
            <==> f in faculties && f.institutionId == institutionId
  {
    if f in faculties && f.institutionId == institutionId {
      FilterKeeps(faculties, (f: Faculty) => f.institutionId == institutionId, f);
    }
  }

  /** The listing returns exactly the courses of the faculty, in table order. */
  lemma CoursesOfExactly(courses: seq<Course>, facultyId: int, c: Course)
    ensures c in CoursesOf(courses, facultyId) <==> c in courses && c.facultyId == facultyId
  {
    if c in courses && c.facultyId == facultyId {
      FilterKeeps(courses, (c: Course) => c.facultyId == facultyId, c);
    }
  }

  /** `DELETE FROM <table> WHERE id = ?`, for each of the three catalog tables. */
  function DeleteInstitutionRows(rows: seq<Institution>, id: int): seq<Institution>
  {
    Filter(rows, (i: Institution) => i.id != id)
  }

  function DeleteFacultyRows(rows: seq<Faculty>, id: int): seq<Faculty>
  {
    Filter(rows, (f: Faculty) => f.id != id)
  }

  function DeleteCourseRows(rows: seq<Course>, id: int): seq<Course>
  {
    Filter(rows, (c: Course) => c.id != id)
  }

  /** A delete removes every row with the id and keeps every other row. */
  lemma DeleteFacultyRowsExactly(rows: seq<Faculty>, id: int, f: Faculty)
    ensures f in DeleteFacultyRows(rows, id) <==> f in rows && f.id != id
  {
    if f in rows && f.id != id {
      FilterKeeps(rows, (f: Faculty) => f.id != id, f);
    }
  }

  // ----- login -------------------------------------------------------------

  /** `SELECT * FROM users WHERE email = ? AND password = ? AND role = ?`,
      reduced to its first row. */
  function MatchingUser(users: seq<User>, email: string, password: string, role: string): Option<User>
  {
    Find(users, (u: User) => u.email == email && u.password == password && u.role == role)
  }

  /** The reply of `/login` when the request is not a registration. */
  function LoginReply(users: seq<User>, email: string, password: string, role: string,
                      storeFails: bool): (r: Reply)
    ensures r.code == 200
            <==> !storeFails && exists u :: u in users && u.email == email && u.password == password && u.role == role
    ensures r.code != 200 ==> r == Reply(500, "Failed to log in") || r == Reply(400, "Invalid credentials")
    ensures r.code == 400 <==> !storeFails && forall u :: u in users ==> !(u.email == email && u.password == password && u.role == role)
  {
    if storeFails then Reply(500, "Failed to log in")
    else if MatchingUser(users, email, password, role).None? then Reply(400, "Invalid credentials")
    else Reply(200, "Login successful")
  }

  // ----- application status -----------------------------------------------

  /** The two guards of `/updateApplicationStatus`: a missing or empty status
      is required, and anything outside the closed set is invalid. */
  function CheckStatus(status: Option<string>): (r: Checked<string>)
    ensures r.Ok? <==> status.Some? && status.value in ValidStatuses
    ensures r.Ok? ==> r.value == status.value
    ensures r.Refused? ==> r.reply.code == 400
    ensures r.Refused? && !Truthy(status) ==> r.reply.text == "Status is required"
    ensures r.Refused? && Truthy(status) ==> r.reply.text == "Invalid status"
  {
    if !Truthy(status) then Refused(Reply(400, "Status is required"))
    else if status.value !in ValidStatuses then Refused(Reply(400, "Invalid status"))
    else Ok(status.value)
  }

  /** `UPDATE applications SET status = ? WHERE id = ?` */
  function SetStatus(apps: seq<Application>, id: int, status: string): (r: seq<Application>)
  {
    if apps == [] then []
    else [if apps[0].id == id then apps[0].(status := status) else apps[0]]
         + SetStatus(apps[1..], id, status)
  }

  /** The update rewrites the status of each row with the id, leaves every
      other column and every other row as it was, and keeps length and order. */
  lemma {:induction false} SetStatusAt(apps: seq<Application>, id: int, status: string)
    ensures |SetStatus(apps, id, status)| == |apps|
    ensures forall k :: 0 <= k < |apps| ==>
              SetStatus(apps, id, status)[k]
              == if apps[k].id == id then apps[k].(status := status) else apps[k]
  {
    if apps != [] {
      SetStatusAt(apps[1..], id, status);
    }
  }

  /** The update never touches an id, so the primary key stays a key. */
  lemma SetStatusKeepsKeys(apps: seq<Application>, id: int, status: string)
    requires KeysDistinct(apps, ApplicationKey)
    ensures KeysDistinct(SetStatus(apps, id, status), ApplicationKey)
  {
    var r := SetStatus(apps, id, status);
    SetStatusAt(apps, id, status);
    forall i, j | 0 <= i < j < |r|
      ensures ApplicationKey(r[i]) != ApplicationKey(r[j])
    {
      assert ApplicationKey(apps[i]) != ApplicationKey(apps[j]);
    }
  }

  /** The rows an `UPDATE ... WHERE id = ?` matches (its `affectedRows`). */
  function MatchedRows(apps: seq<Application>, id: int): (n: nat)
    ensures n == 0 <==> forall a :: a in apps ==> a.id != id
  {
    if apps == [] then 0
    else (if apps[0].id == id then 1 else 0) + MatchedRows(apps[1..], id)
  }

  /** An update that matches no row changes nothing. */
  lemma {:induction false} SetStatusNoMatch(apps: seq<Application>, id: int, status: string)
    requires MatchedRows(apps, id) == 0
    ensures SetStatus(apps, id, status) == apps
  {
    if apps != [] {
      SetStatusNoMatch(apps[1..], id, status);
    }
  }

  /** There is no ordered lifecycle: a second update simply overwrites the
      first (so Accepted can go back to Pending), and repeating an update is
      idempotent. */
  lemma {:induction false} SetStatusOverwrites(apps: seq<Application>, id: int, first: string, second: string)
    ensures SetStatus(SetStatus(apps, id, first), id, second) == SetStatus(apps, id, second)
  {
    if apps != [] {
      SetStatusOverwrites(apps[1..], id, first, second);
    }
  }

  // ----- institution-scoped retrieval --------------------------------------

  /** `pictureUrl`: the uploads prefix followed by the stored path when the
      path is truthy, null otherwise. The URL splits back into the prefix and
      the stored path. */
  function PictureUrl(resultFile: Option<string>): (r: Option<string>)
    ensures r.Some? <==> Truthy(resultFile)
    ensures r.Some? ==> |r.value| > |UploadsPrefix|
                        && r.value[..|UploadsPrefix|] == UploadsPrefix
                        && r.value[|UploadsPrefix|..] == resultFile.value
  {
    if Truthy(resultFile) then Some(UploadsPrefix + resultFile.value) else None
  }

  /** The three join conditions `a.institution_id = i.id`,
      `a.faculty_id = f.id` and `a.course_id = c.id`. */
  function InstitutionMatch(a: Application): Institution -> bool
  {
    (i: Institution) => i.id == a.institutionId
  }

  function FacultyMatch(a: Application): Faculty -> bool
  {
    (f: Faculty) => f.id == a.facultyId
  }

  function CourseMatch(a: Application): Course -> bool
  {
    (c: Course) => c.id == a.courseId
  }

  function InstitutionOf(db: Db, a: Application): Option<Institution>
  {
    Find(db.institutions, InstitutionMatch(a))
  }

  function FacultyOf(db: Db, a: Application): Option<Faculty>
  {
    Find(db.faculties, FacultyMatch(a))
  }

  function CourseOf(db: Db, a: Application): Option<Course>
  {
    Find(db.courses, CourseMatch(a))
  }

  /** The three inner joins find a partner row for `a`. */
  predicate Joinable(db: Db, a: Application)
  {
    InstitutionOf(db, a).Some? && FacultyOf(db, a).Some? && CourseOf(db, a).Some?
  }

  /** One joined result row: the application's columns, the three names and
      the picture URL. */
  function Enrich(db: Db, a: Application): (e: Enriched)
    requires Joinable(db, a)
    ensures e.app == a && e.pictureUrl == PictureUrl(a.resultFile)
    ensures exists i :: i in db.institutions && i.id == a.institutionId && i.name == e.institutionName
    ensures exists f :: f in db.faculties && f.id == a.facultyId && f.name == e.facultyName
    ensures exists c :: c in db.courses && c.id == a.courseId && c.name == e.courseName
  {
    Enriched(a, InstitutionOf(db, a).value.name, FacultyOf(db, a).value.name,
             CourseOf(db, a).value.name, PictureUrl(a.resultFile))
  }

  /** Whether the retrieval for `institutionId` surfaces `a`. */
  predicate Retrieved(db: Db, institutionId: int, a: Application)
  {
    a.institutionId == institutionId && Joinable(db, a)
  }

  /** `GET /applications/institution/:institutionId`: the joined rows of the
      institution's applications, in table order, each mapped to carry its
      picture URL. */
  function RetrieveFrom(db: Db, apps: seq<Application>, institutionId: int): seq<Enriched>
  {
    if apps == [] then []
    else if Retrieved(db, institutionId, apps[0])
    then [Enrich(db, apps[0])] + RetrieveFrom(db, apps[1..], institutionId)
    else RetrieveFrom(db, apps[1..], institutionId)
  }

  function Retrieve(db: Db, institutionId: int): seq<Enriched>
  {
    RetrieveFrom(db, db.applications, institutionId)
  }

  /** Every result row is the enrichment of an application of the institution
      whose three references all resolve. */
  lemma {:induction false} RetrieveFromSound(db: Db, apps: seq<Application>, institutionId: int, e: Enriched)
    requires e in RetrieveFrom(db, apps, institutionId)
    ensures e.app in apps && Retrieved(db, institutionId, e.app) && e == Enrich(db, e.app)
  {
    if !(Retrieved(db, institutionId, apps[0]) && e == Enrich(db, apps[0])) {
      RetrieveFromSound(db, apps[1..], institutionId, e);
    }
  }

  /** Every application of the institution whose references all resolve
      appears, enriched, among the result rows. */
  lemma {:induction false} RetrieveFromComplete(db: Db, apps: seq<Application>, institutionId: int, a: Application)
    requires a in apps && Retrieved(db, institutionId, a)
    ensures Enrich(db, a) in RetrieveFrom(db, apps, institutionId)
  {
    if apps[0] != a {
      RetrieveFromComplete(db, apps[1..], institutionId, a);
    }
  }

  /** The retrieval returns exactly the joinable applications of the
      institution: rows with a dangling reference are silently omitted. */
  lemma RetrieveExactly(db: Db, institutionId: int, a: Application)
    ensures (exists e :: e in Retrieve(db, institutionId) && e.app == a)
            <==> a in db.applications && Retrieved(db, institutionId, a)
  {
    if a in db.applications && Retrieved(db, institutionId, a) {
      RetrieveFromComplete(db, db.applications, institutionId, a);
    }
    if e :| e in Retrieve(db, institutionId) && e.app == a {
      RetrieveFromSound(db, db.applications, institutionId, e);
    }
  }

  /** An institution none of whose applications can be joined (in
      particular one with no applications) yields an empty list, not an
      error. */
  lemma {:induction false} RetrieveFromEmpty(db: Db, apps: seq<Application>, institutionId: int)
    requires forall a :: a in apps ==> !Retrieved(db, institutionId, a)
    ensures RetrieveFrom(db, apps, institutionId) == []
  {
    if apps != [] {
      RetrieveFromEmpty(db, apps[1..], institutionId);
    }
  }

  /** The retrieval of a concatenation is the concatenation of the
      retrievals: result rows come in table order. */
  lemma {:induction false} RetrieveFromAppend(db: Db, apps: seq<Application>, more: seq<Application>, institutionId: int)
    ensures RetrieveFrom(db, apps + more, institutionId)
            == RetrieveFrom(db, apps, institutionId) + RetrieveFrom(db, more, institutionId)
  {
    if apps == [] {
      assert apps + more == more;
    } else {
      assert (apps + more)[1..] == apps[1..] + more;
      RetrieveFromAppend(db, apps[1..], more, institutionId);
    }
  }

  /** A submission followed by the retrieval for its institution: the result
      grows by exactly the new row, enriched, when its three references
      resolve, and is unchanged otherwise. */
  lemma RetrieveAfterInsert(db: Db, a: Application, institutionId: int)
    ensures Retrieve(db.(applications := db.applications + [a]), institutionId)
            == Retrieve(db, institutionId)
               + (if Retrieved(db, institutionId, a) then [Enrich(db, a)] else [])
  {
    var db' := db.(applications := db.applications + [a]);
    RetrieveFromSameJoins(db, db', db.applications, institutionId);
    RetrieveFromSameJoins(db, db', [a], institutionId);
    RetrieveFromAppend(db', db.applications, [a], institutionId);
    assert [a][1..] == [];
  }

  /** The joins read only the three catalog tables. */
  lemma {:induction false} RetrieveFromSameJoins(db: Db, db': Db, apps: seq<Application>, institutionId: int)
    requires db.institutions == db'.institutions && db.faculties == db'.faculties && db.courses == db'.courses
    ensures RetrieveFrom(db, apps, institutionId) == RetrieveFrom(db', apps, institutionId)
  {
    if apps != [] {
      RetrieveFromSameJoins(db, db', apps[1..], institutionId);
    }
  }

  /** Deleting an institution hides all its applications: they stay in the
      table, but the inner join no longer finds their institution. */
  lemma RetrieveAfterInstitutionDeleted(db: Db, institutionId: int)
    ensures Retrieve(db.(institutions := DeleteInstitutionRows(db.institutions, institutionId)), institutionId) == []
  {
    var db' := db.(institutions := DeleteInstitutionRows(db.institutions, institutionId));
    forall a | a in db'.applications
      ensures !Retrieved(db', institutionId, a)
    {
      if a.institutionId == institutionId {
        assert InstitutionOf(db', a).None?;
      }
    }
    RetrieveFromEmpty(db', db'.applications, institutionId);
  }

  /** Deleting a faculty silently drops its applications from every
      institution's retrieval. */
  lemma RetrieveAfterFacultyDeleted(db: Db, facultyId: int, institutionId: int, e: Enriched)
    requires e in Retrieve(db.(faculties := DeleteFacultyRows(db.faculties, facultyId)), institutionId)
    ensures e.app.facultyId != facultyId
  {
    var db' := db.(faculties := DeleteFacultyRows(db.faculties, facultyId));
    RetrieveFromSound(db', db'.applications, institutionId, e);
  }

  // ----- the inner join as SQL evaluates it ---------------------------------

  /** The rows each inner join pairs with `a`: every catalog row whose id is
      the application's reference. */
  function InstitutionPartners(db: Db, a: Application): seq<Institution>
  {
    Filter(db.institutions, InstitutionMatch(a))
  }

  function FacultyPartners(db: Db, a: Application): seq<Faculty>
  {
    Filter(db.faculties, FacultyMatch(a))
  }

  function CoursePartners(db: Db, a: Application): seq<Course>
  {
    Filter(db.courses, CourseMatch(a))
  }

  /** The result rows for `a` with institution `i` and faculty `f` fixed:
      one per partner course. */
  function CourseRowsFor(a: Application, i: Institution, f: Faculty, cs: seq<Course>): seq<Enriched>
  {
    Map(cs, (c: Course) => Enriched(a, i.name, f.name, c.name, PictureUrl(a.resultFile)))
  }

  function FacultyRowsFor(a: Application, i: Institution, fs: seq<Faculty>, cs: seq<Course>): seq<Enriched>
  {
    if fs == [] then [] else CourseRowsFor(a, i, fs[0], cs) + FacultyRowsFor(a, i, fs[1..], cs)
  }

  /** The result rows the three joins produce for one application: one for
      every choice of partner row in each catalog table, so none when a
      table has no partner. */
  function JoinedRows(a: Application, insts: seq<Institution>, fs: seq<Faculty>, cs: seq<Course>): seq<Enriched>
  {
    if insts == [] then [] else FacultyRowsFor(a, insts[0], fs, cs) + JoinedRows(a, insts[1..], fs, cs)
  }

  /** The `SELECT ... JOIN ... WHERE a.institution_id = ?` query over the
      rows `apps`, evaluated as the three-way inner join, application by
      application. */
  function JoinFrom(db: Db, apps: seq<Application>, institutionId: int): seq<Enriched>
  {
    if apps == [] then []
    else (if apps[0].institutionId == institutionId
          then JoinedRows(apps[0], InstitutionPartners(db, apps[0]), FacultyPartners(db, apps[0]),
                          CoursePartners(db, apps[0]))
          else [])
         + JoinFrom(db, apps[1..], institutionId)
  }

  /** Under the primary keys each join has one partner row or none, and
      `Find` picks that row: the partner list is exactly the found row. */
  lemma PartnersUnique(db: Db, a: Application)
    requires KeysUnique(db)
    ensures InstitutionPartners(db, a)
            == if InstitutionOf(db, a).Some? then [InstitutionOf(db, a).value] else []
    ensures FacultyPartners(db, a) == if FacultyOf(db, a).Some? then [FacultyOf(db, a).value] else []
    ensures CoursePartners(db, a) == if CourseOf(db, a).Some? then [CourseOf(db, a).value] else []
  {
    FilterSingleMatch(db.institutions, InstitutionMatch(a));
    FilterSingleMatch(db.faculties, FacultyMatch(a));
    FilterSingleMatch(db.courses, CourseMatch(a));
  }

  /** For one application the three joins yield its enriched row when all
      three references resolve, and no row otherwise. */
  lemma JoinedRowsUnique(db: Db, a: Application)
    requires KeysUnique(db)
    ensures JoinedRows(a, InstitutionPartners(db, a), FacultyPartners(db, a), CoursePartners(db, a))
            == if Joinable(db, a) then [Enrich(db, a)] else []
  {
    PartnersUnique(db, a);
    var insts, fs, cs := InstitutionPartners(db, a), FacultyPartners(db, a), CoursePartners(db, a);
    if insts != [] {
      var i := insts[0];
      assert insts[1..] == [];
      if fs != [] {
        assert fs[1..] == [];
        assert FacultyRowsFor(a, i, fs, cs) == CourseRowsFor(a, i, fs[0], cs);
      }
    }
  }

  /** With primary keys in place, the `Find`-based retrieval is the SQL
      join: the same rows in the same order. */
  lemma {:induction false} JoinFromIsRetrieveFrom(db: Db, apps: seq<Application>, institutionId: int)
    requires KeysUnique(db)
    ensures JoinFrom(db, apps, institutionId) == RetrieveFrom(db, apps, institutionId)
  {
    if apps != [] {
      JoinedRowsUnique(db, apps[0]);
      JoinFromIsRetrieveFrom(db, apps[1..], institutionId);
    }
  }

  /** Registering an account makes a login with the same email, password
      and role succeed (when the store answers). */
  lemma RegisterThenLogin(users: seq<User>, u: User)
    ensures LoginReply(users + [u], u.email, u.password, u.role, false) == Reply(200, "Login successful")
  {
    assert u in users + [u];
  }
}
