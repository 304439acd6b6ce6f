/** The Express backend as one object holding the five tables, with one
    method per route. A failing query callback is the `storeError`
    parameter (the driver's error message, if any); a generated
    auto-increment id is the `freshId` parameter, not yet a key of its
    table. */
module Server {
  import opened Sequences
  import opened Tables

  /** The `{ id, name }` object the insert routes echo back. */
  datatype Created = Created(id: int, name: string)

  class Store {
    var institutions: seq<Institution>
    var faculties: seq<Faculty>
    var courses: seq<Course>
    var applications: seq<Application>
    var users: seq<User>

    /** The five tables as one value, for the pure queries. */
    function Snapshot(): Db
      reads this
    {
      Db(institutions, faculties, courses, applications, users)
    }

    /** Every id column is a primary key. */
    ghost predicate Valid()
      reads this
    {
      KeysUnique(Snapshot())
    }

    constructor ()
      ensures Valid() && Snapshot() == Db([], [], [], [], [])
    {
      institutions, faculties, courses, applications, users := [], [], [], [], [];
    }

    // ----- /login ------------------------------------------------------------

    /** `/login` with `isRegistering` set: one user row is inserted, or none
        when the insert fails. */
    method Register(email: string, password: string, username: string, role: string,
                    instituteName: Option<string>, storeError: Option<string>)
      returns (reply: Reply)
      requires Valid()
      modifies this`users
      ensures Valid()
      ensures storeError.Some? ==> reply == Reply(500, "Failed to register user") && users == old(users)
      ensures storeError.None? ==> reply == Reply(200, "Registration successful")
                                   && users == old(users) + [User(email, password, username, role, instituteName)]
    {
      if storeError.Some? {
        return Reply(500, "Failed to register user");
      }
      users := users + [User(email, password, username, role, instituteName)];
      reply := Reply(200, "Registration successful");
    }

    /** `/login` without `isRegistering`: success exactly when one user row
        matches email, password and role at once. */
    method Login(email: string, password: string, role: string, storeError: Option<string>)
      returns (reply: Reply)
      ensures reply.code == 200
              <==> storeError.None? && exists u :: u in users && u.email == email && u.password == password && u.role == role
      ensures reply.code != 200 ==> reply == Reply(500, "Failed to log in") || reply == Reply(400, "Invalid credentials")
      ensures reply == LoginReply(users, email, password, role, storeError.Some?)
    {
      reply := LoginReply(users, email, password, role, storeError.Some?);
    }

    // ----- catalog listings ------------------------------------------------------

    /** `GET /institutes` */
    method ListInstitutions(storeError: Option<string>) returns (reply: Reply, rows: seq<Institution>)
      ensures storeError.Some? ==> reply == Reply(500, "Error fetching institutions") && rows == []
      ensures storeError.None? ==> reply.code == 200 && rows == institutions
    {
      if storeError.Some? {
        return Reply(500, "Error fetching institutions"), [];
      }
      reply, rows := Reply(200, ""), institutions;
    }

    /** `GET /faculties/:institutionId`: exactly the institution's faculties,
        in table order. */
    method ListFaculties(institutionId: int, storeError: Option<string>) returns (reply: Reply, rows: seq<Faculty>)
      ensures storeError.Some? ==> reply == Reply(500, "Error fetching faculties") && rows == []
      ensures storeError.None? ==> reply.code == 200 && rows == FacultiesOf(faculties, institutionId)
      ensures forall f :: f in rows ==> f in faculties && f.institutionId == institutionId
    {
      if storeError.Some? {
        return Reply(500, "Error fetching faculties"), [];
      }
      reply, rows := Reply(200, ""), FacultiesOf(faculties, institutionId);
    }

    /** `GET /courses/:facultyId`: exactly the faculty's courses, in table
        order; a failure echoes the driver's message. */
    method ListCourses(facultyId: int, storeError: Option<string>) returns (reply: Reply, rows: seq<Course>)
      ensures storeError.Some? ==> reply == Reply(500, storeError.value) && rows == []
      ensures storeError.None? ==> reply.code == 200 && rows == CoursesOf(courses, facultyId)
      ensures forall c :: c in rows ==> c in courses && c.facultyId == facultyId
    {
      if storeError.Some? {
        return Reply(500, storeError.value), [];
      }
      reply, rows := Reply(200, ""), CoursesOf(courses, facultyId);
    }

    // ----- catalog inserts --------------------------------------------------------

    /** `POST /addInstitution`: appends one row under the generated id and
        echoes it back. */
    method AddInstitution(name: string, freshId: int, storeError: Option<string>)
      returns (reply: Reply, created: Option<Created>)
      requires Valid() && KeyFresh(institutions, InstitutionKey, freshId)
      modifies this`institutions
      ensures Valid()
      ensures storeError.Some? ==> reply == Reply(500, "Error adding institution") && created == None
                                   && institutions == old(institutions)
      ensures storeError.None? ==> reply.code == 200 && created == Some(Created(freshId, name))
                                   && institutions == old(institutions) + [Institution(freshId, name)]
    {
      if storeError.Some? {
        return Reply(500, "Error adding institution"), None;
      }
      institutions := institutions + [Institution(freshId, name)];
      reply, created := Reply(200, ""), Some(Created(freshId, name));
    }

    /** `POST /addFaculty`: appends one row; the institution id is not
        checked against the institutions table. */
    method AddFaculty(institutionId: int, facultyName: string, freshId: int, storeError: Option<string>)
      returns (reply: Reply)
      requires Valid() && KeyFresh(faculties, FacultyKey, freshId)
      modifies this`faculties
      ensures Valid()
      ensures storeError.Some? ==> reply == Reply(500, "Error adding faculty") && faculties == old(faculties)
      ensures storeError.None? ==> reply == Reply(200, "Faculty added successfully")
                                   && faculties == old(faculties) + [Faculty(freshId, institutionId, facultyName)]
    {
      if storeError.Some? {
        return Reply(500, "Error adding faculty");
      }
      faculties := faculties + [Faculty(freshId, institutionId, facultyName)];
      reply := Reply(200, "Faculty added successfully");
    }

    /** `POST /addCourse`: appends one row and echoes its id and name; the
        faculty id is not checked against the faculties table. */
    method AddCourse(facultyId: int, courseName: string, freshId: int, storeError: Option<string>)
      returns (reply: Reply, created: Option<Created>)
      requires Valid() && KeyFresh(courses, CourseKey, freshId)
      modifies this`courses
      ensures Valid()
      ensures storeError.Some? ==> reply == Reply(500, storeError.value) && created == None && courses == old(courses)
      ensures storeError.None? ==> reply.code == 200 && created == Some(Created(freshId, courseName))
                                   && courses == old(courses) + [Course(freshId, facultyId, courseName)]
    {
      if storeError.Some? {
        return Reply(500, storeError.value), None;
      }
      courses := courses + [Course(freshId, facultyId, courseName)];
      reply, created := Reply(200, ""), Some(Created(freshId, courseName));
    }

    // ----- catalog deletes -----------------------------------------------------------

    /** `DELETE /deleteInstitution/:id`: removes every row with the id and
        reports success even when there was none; nothing cascades. */
    method DeleteInstitution(id: int) returns (reply: Reply)
      requires Valid()
      modifies this`institutions
      ensures Valid()
      ensures reply == Reply(200, "Institution deleted")
      ensures institutions == DeleteInstitutionRows(old(institutions), id)
    {
      FilterKeysDistinct(institutions, (i: Institution) => i.id != id, InstitutionKey);
      institutions := DeleteInstitutionRows(institutions, id);
      reply := Reply(200, "Institution deleted");
    }

    /** `DELETE /deleteFaculty/:id`: removes every row with the id; the
        faculty's courses stay. */
    method DeleteFaculty(id: int) returns (reply: Reply)
      requires Valid()
      modifies this`faculties
      ensures Valid()
      ensures reply == Reply(200, "Faculty deleted")
      ensures faculties == DeleteFacultyRows(old(faculties), id)
    {
      FilterKeysDistinct(faculties, (f: Faculty) => f.id != id, FacultyKey);
      faculties := DeleteFacultyRows(faculties, id);
      reply := Reply(200, "Faculty deleted");
    }

    /** `DELETE /deleteCourse/:id`: removes every row with the id. */
    method DeleteCourse(id: int) returns (reply: Reply)
      requires Valid()
      modifies this`courses
      ensures Valid()
      ensures reply == Reply(200, "Course deleted")
      ensures courses == DeleteCourseRows(old(courses), id)
    {
      FilterKeysDistinct(courses, (c: Course) => c.id != id, CourseKey);
      courses := DeleteCourseRows(courses, id);
      reply := Reply(200, "Course deleted");
    }

    // ----- the application lifecycle ---------------------------------------------------

    /** `POST /apply`: one application row with the submitted fields and the
        uploaded file's path (NULL without a file); the status column takes
        the table's default, `defaultStatus`. The references are not
        checked. The reply reflects only whether the awaited `execute`
        rejects (`executeThrows`); whether the row lands (`inserted`) is a
        separate outcome, since the callback-style driver does not tie the
        two together. */
    method Apply(name: string, email: string, phone: string,
                 institutionId: int, facultyId: int, courseId: int,
                 uploadedPath: Option<string>, freshId: int, defaultStatus: string,
                 executeThrows: bool, inserted: bool)
      returns (reply: Reply)
      requires Valid() && KeyFresh(applications, ApplicationKey, freshId)
      modifies this`applications
      ensures Valid()
      ensures reply == if executeThrows then Reply(500, "Database error")
                       else Reply(200, "Application submitted successfully!")
      ensures applications
              == old(applications)
                 + if inserted
                   then [Application(freshId, name, email, phone, institutionId, facultyId, courseId,
                                     uploadedPath, defaultStatus)]
                   else []
    {
      if inserted {
        applications := applications + [Application(freshId, name, email, phone, institutionId, facultyId,
                                                    courseId, uploadedPath, defaultStatus)];
      }
      reply := if executeThrows then Reply(500, "Database error")
               else Reply(200, "Application submitted successfully!");
    }

    /** `GET /applications/institution/:institutionId`: the result of the
        three inner joins over the institution's applications, enriched with
        the joined names and the picture URL. Because every id is a primary
        key, each surviving application appears exactly once. */
    method InstitutionApplications(institutionId: int, storeError: Option<string>)
      returns (reply: Reply, rows: seq<Enriched>)
      requires Valid()
      ensures storeError.Some? ==> reply == Reply(500, "Error retrieving applications") && rows == []
      ensures storeError.None? ==> reply.code == 200 && rows == JoinFrom(Snapshot(), applications, institutionId)
      ensures storeError.None? ==> rows == Retrieve(Snapshot(), institutionId)
    {
      if storeError.Some? {
        return Reply(500, "Error retrieving applications"), [];
      }
      JoinFromIsRetrieveFrom(Snapshot(), applications, institutionId);
      reply, rows := Reply(200, ""), Retrieve(Snapshot(), institutionId);
    }

    /** `PUT /updateApplicationStatus/:applicationId`: a missing, empty or
        unknown status is a 400, a store error a 500, an id no row carries a
        404, and each of these leaves the table alone; otherwise every row
        with the id takes the new status, whatever its old one. */
    method UpdateApplicationStatus(applicationId: int, status: Option<string>, storeError: Option<string>)
      returns (reply: Reply)
      requires Valid()
      modifies this`applications
      ensures Valid()
      ensures CheckStatus(status).Refused? ==> reply == CheckStatus(status).reply
      ensures CheckStatus(status).Ok? && storeError.Some? ==>
                reply == Reply(500, "Failed to update application status")
      ensures CheckStatus(status).Ok? && storeError.None? && MatchedRows(old(applications), applicationId) == 0 ==>
                reply == Reply(404, "Application not found")
      ensures reply.code == 200 <==>
                CheckStatus(status).Ok? && storeError.None? && MatchedRows(old(applications), applicationId) > 0
      ensures reply.code == 200 ==> applications == SetStatus(old(applications), applicationId, status.value)
      ensures reply.code == 200 ==> reply.text == "Application status updated to " + status.value + " successfully"
      ensures reply.code != 200 ==> applications == old(applications)
    {
      var checked := CheckStatus(status);
      if checked.Refused? {
        return checked.reply;
      }
      if storeError.Some? {
        return Reply(500, "Failed to update application status");
      }
      if MatchedRows(applications, applicationId) == 0 {
        return Reply(404, "Application not found");
      }
      applications := SetStatus(applications, applicationId, checked.value);
      SetStatusAt(old(applications), applicationId, checked.value);
      SetStatusKeepsKeys(old(applications), applicationId, checked.value);
      reply := Reply(200, "Application status updated to " + checked.value + " successfully");
    }

    /** `POST /releaseAdmissions/:institutionId`: a stub that changes no
        table and succeeds whenever an institution id is present. */
    method ReleaseAdmissions(institutionId: string) returns (reply: Reply)
      ensures reply.code == 200 <==> institutionId != ""
      ensures reply.code != 200 ==> reply == Reply(400, "Institution ID is required")
      ensures reply.code == 200 ==> reply.text == "Admissions released successfully"
    {
      if institutionId == "" {
        return Reply(400, "Institution ID is required");
      }
      reply := Reply(200, "Admissions released successfully");
    }
  }
}
