/** The institute dashboard's own copy of the workflow: the component state
    it keeps (selections, the faculty, course and application lists, the
    text of the two "Add" inputs) and the transformations its handlers and
    effects apply to that state once a request settles. Requests themselves
    are values the handlers hand out; responses come in as parameters. */
module Dashboard {
  import opened Sequences
  import opened Tables

  // ----- the optimistic status update --------------------------------------

  /** `prev.map(app => app.id === applicationId ? { ...app, status } : app)`:
      the entry with the id gets the new status, every other entry and every
      other field stays, and length and order are kept. */
  function WithStatus(apps: seq<Enriched>, applicationId: int, status: string): (r: seq<Enriched>)
    ensures |r| == |apps|
    ensures forall k :: 0 <= k < |apps| && apps[k].app.id == applicationId ==>
              r[k] == apps[k].(app := apps[k].app.(status := status))
    ensures forall k :: 0 <= k < |apps| && apps[k].app.id != applicationId ==> r[k] == apps[k]
  {
    Map(apps, (e: Enriched) => if e.app.id == applicationId then e.(app := e.app.(status := status)) else e)
  }

  // ----- delete-by-id filters -----------------------------------------------

  /** `prev.filter(fac => fac.id !== facultyId)` */
  function WithoutFaculty(faculties: seq<Faculty>, facultyId: int): seq<Faculty>
  {
    Filter(faculties, (f: Faculty) => f.id != facultyId)
  }

  /** `prev.filter(course => course.id !== courseId)` */
  function WithoutCourse(courses: seq<Course>, courseId: int): seq<Course>
  {
    Filter(courses, (c: Course) => c.id != courseId)
  }

  /** Deleting a faculty removes every entry with the id, keeps every other
      entry, and keeps the survivors of any two parts of the list in order. */
  lemma WithoutFacultyExactly(faculties: seq<Faculty>, more: seq<Faculty>, facultyId: int, f: Faculty)
    ensures f in WithoutFaculty(faculties, facultyId) <==> f in faculties && f.id != facultyId
    ensures WithoutFaculty(faculties + more, facultyId)
            == WithoutFaculty(faculties, facultyId) + WithoutFaculty(more, facultyId)
  {
    if f in faculties && f.id != facultyId {
      FilterKeeps(faculties, (f: Faculty) => f.id != facultyId, f);
    }
    FilterAppend(faculties, more, (f: Faculty) => f.id != facultyId);
  }

  /** Deleting a course removes every entry with the id, keeps every other
      entry, and keeps the survivors of any two parts of the list in order. */
  lemma WithoutCourseExactly(courses: seq<Course>, more: seq<Course>, courseId: int, c: Course)
    ensures c in WithoutCourse(courses, courseId) <==> c in courses && c.id != courseId
    ensures WithoutCourse(courses + more, courseId)
            == WithoutCourse(courses, courseId) + WithoutCourse(more, courseId)
  {
    if c in courses && c.id != courseId {
      FilterKeeps(courses, (c: Course) => c.id != courseId, c);
    }
    FilterAppend(courses, more, (c: Course) => c.id != courseId);
  }

  /** The client's filter agrees with the store: removing the faculty from the
      institution's listing gives the listing of the table after the
      `DELETE`. */
  lemma FacultyDeleteMirrorsStore(table: seq<Faculty>, institutionId: int, facultyId: int)
    ensures WithoutFaculty(FacultiesOf(table, institutionId), facultyId)
            == FacultiesOf(DeleteFacultyRows(table, facultyId), institutionId)
  {
    FilterCommutes(table, (f: Faculty) => f.institutionId == institutionId, (f: Faculty) => f.id != facultyId);
  }

  /** The same agreement for a course removed from a faculty's listing. */
  lemma CourseDeleteMirrorsStore(table: seq<Course>, facultyId: int, courseId: int)
    ensures WithoutCourse(CoursesOf(table, facultyId), courseId)
            == CoursesOf(DeleteCourseRows(table, courseId), facultyId)
  {
    FilterCommutes(table, (c: Course) => c.facultyId == facultyId, (c: Course) => c.id != courseId);
  }

  // ----- blank-name guard -----------------------------------------------------

  /** The characters `String.prototype.trim` strips: ECMAScript WhiteSpace
      (tab, vertical tab, form feed, the byte order mark and every space
      separator) and LineTerminator. */
  predicate IsTrimmable(c: char)
  {
    || c == '\t' || c == '\n' || c == '\U{000B}' || c == '\U{000C}' || c == '\r'
    || c == ' ' || c == '\U{00A0}' || c == '\U{1680}'
    || ('\U{2000}' <= c <= '\U{200A}')
    || c == '\U{2028}' || c == '\U{2029}' || c == '\U{202F}' || c == '\U{205F}'
    || c == '\U{3000}' || c == '\U{FEFF}'
  }

  /** `s` without its leading trimmable characters. */
  function TrimStart(s: string): (r: string)
    ensures |r| <= |s| && r == s[|s| - |r|..]
    ensures forall i :: 0 <= i < |s| - |r| ==> IsTrimmable(s[i])
    ensures r != [] ==> !IsTrimmable(r[0])
  {
    if s != [] && IsTrimmable(s[0]) then TrimStart(s[1..]) else s
  }

  /** `s` without its trailing trimmable characters. */
  function TrimEnd(s: string): (r: string)
    ensures |r| <= |s| && r == s[..|r|]
    ensures forall i :: |r| <= i < |s| ==> IsTrimmable(s[i])
    ensures r != [] ==> !IsTrimmable(r[|r| - 1])
  {
    if s != [] && IsTrimmable(s[|s| - 1]) then TrimEnd(s[..|s| - 1]) else s
  }

  function Trim(s: string): string
  {
    TrimEnd(TrimStart(s))
  }

  /** `!name.trim()`: the guard of both "Add" handlers. */
  predicate IsBlank(s: string)
  {
    Trim(s) == ""
  }

  /** A name is blank exactly when it is empty or made only of whitespace. */
  lemma BlankIffAllWhitespace(s: string)
    ensures IsBlank(s) <==> forall i :: 0 <= i < |s| ==> IsTrimmable(s[i])
  {
    var t := TrimStart(s);
    if t != [] {
      assert !IsTrimmable(s[|s| - |t|]) && !IsTrimmable(t[0]);
      assert TrimEnd(t) != [];
    }
  }

  // ----- action buttons -----------------------------------------------------

  /** The three buttons in an application's row, by the status each sets. */
  datatype Action = Accept | Reject | MarkPending

  function Target(a: Action): (s: string)
    ensures s in ValidStatuses
  {
    match a
    case Accept => Accepted
    case Reject => Rejected
    case MarkPending => Pending
  }

  /** `application.status !== '<target>' && <button>` */
  predicate Shows(current: string, a: Action)
  {
    current != Target(a)
  }

  /** The buttons rendered for an application with status `current`, in
      their on-screen order. */
  function VisibleActions(current: string): seq<Action>
  {
    Filter([Accept, Reject, MarkPending], (a: Action) => Shows(current, a))
  }

  /** The button that sets status S is shown exactly when the current status
      is not S: a valid status shows exactly the two buttons that move away
      from it, an unknown status shows all three. */
  lemma VisibleActionsExactly(current: string, a: Action)
    ensures a in VisibleActions(current) <==> current != Target(a)
    ensures |VisibleActions(current)| == if current in ValidStatuses then 2 else 3
  {
    var all := [Accept, Reject, MarkPending];
    var shows := (a: Action) => Shows(current, a);
    assert a in all;
    if current != Target(a) {
      FilterKeeps(all, shows, a);
    }
    assert Filter(all, shows)
           == (if shows(Accept) then [Accept] else [])
              + (if shows(Reject) then [Reject] else [])
              + (if shows(MarkPending) then [MarkPending] else []) by {
      assert all[1..] == [Reject, MarkPending];
      assert all[1..][1..] == [MarkPending];
      assert all[1..][1..][1..] == [];
    }
  }

  // ----- image helper ---------------------------------------------------------

  const ServerOrigin: string := "http://localhost:5000"

  /** `getImageSrc`: null unless both the file path and its type are
      truthy, otherwise the server origin followed by the path. */
  function ImageSrc(fileData: Option<string>, fileType: Option<string>): (r: Option<string>)
    ensures r.Some? <==> Truthy(fileData) && Truthy(fileType)
    ensures r.Some? ==> |r.value| >= |ServerOrigin|
                        && r.value[..|ServerOrigin|] == ServerOrigin
                        && r.value[|ServerOrigin|..] == fileData.value
  {
    if Truthy(fileData) && Truthy(fileType) then Some(ServerOrigin + fileData.value) else None
  }

  // ----- component state ------------------------------------------------------

  datatype AddFacultyRequest = AddFacultyRequest(institutionId: string, facultyName: string)
  datatype AddCourseRequest = AddCourseRequest(facultyId: string, courseName: string)

  const ReleasedDefault: string := "Admissions released successfully"

  /** The state fields of `InstituteDashboard`. Selections are the raw
      `<select>` values, "" meaning nothing is selected. */
  class Component {
    var institutions: seq<Institution>
    var faculties: seq<Faculty>
    var courses: seq<Course>
    var newFaculty: string
    var newCourse: string
    var selectedInstitution: string
    var selectedFaculty: string
    var applications: seq<Enriched>
    var successMessage: string

    /** The initial `useState` values. */
    constructor ()
      ensures institutions == [] && faculties == [] && courses == [] && applications == []
      ensures newFaculty == "" && newCourse == ""
      ensures selectedInstitution == "" && selectedFaculty == "" && successMessage == ""
    {
      institutions, faculties, courses, applications := [], [], [], [];
      newFaculty, newCourse := "", "";
      selectedInstitution, selectedFaculty, successMessage := "", "", "";
    }

    /** The mount effect: the institutions list takes the rows `/institutes`
        returned. The route's error reply is plain text, which `res.json()`
        cannot parse, so a failed fetch leaves the list as it was. */
    method InstitutionsLoaded(fetched: Option<seq<Institution>>)
      modifies this`institutions
      ensures institutions == if fetched.Some? then fetched.value else old(institutions)
    {
      if fetched.Some? {
        institutions := fetched.value;
      }
    }

    /** A new institution is picked and the effect keyed on it runs: with a
        selection, each list takes its fetched rows once they arrive (a
        failed fetch leaves it as it was); with the selection cleared, both
        the faculties and the applications are emptied. */
    method SelectInstitution(value: string, fetchedFaculties: Option<seq<Faculty>>,
                             fetchedApplications: Option<seq<Enriched>>)
      modifies this`selectedInstitution, this`faculties, this`applications
      ensures selectedInstitution == value
      ensures value == "" ==> faculties == [] && applications == []
      ensures value != "" ==> faculties == (if fetchedFaculties.Some? then fetchedFaculties.value else old(faculties))
      ensures value != "" ==> applications == (if fetchedApplications.Some? then fetchedApplications.value else old(applications))
    {
      selectedInstitution := value;
      if selectedInstitution != "" {
        if fetchedFaculties.Some? {
          faculties := fetchedFaculties.value;
        }
        if fetchedApplications.Some? {
          applications := fetchedApplications.value;
        }
      } else {
        faculties := [];
        applications := [];
      }
    }

    /** A new faculty is picked: with a selection the courses take the
        fetched rows; with the selection cleared the courses are emptied. */
    method SelectFaculty(value: string, fetchedCourses: Option<seq<Course>>)
      modifies this`selectedFaculty, this`courses
      ensures selectedFaculty == value
      ensures value == "" ==> courses == []
      ensures value != "" ==> courses == (if fetchedCourses.Some? then fetchedCourses.value else old(courses))
    {
      selectedFaculty := value;
      if selectedFaculty != "" {
        if fetchedCourses.Some? {
          courses := fetchedCourses.value;
        }
      } else {
        courses := [];
      }
    }

    /** `handleAddFaculty`: no request at all for a blank name, otherwise the
        body sent to `/addFaculty`. */
    method AddFaculty() returns (request: Option<AddFacultyRequest>)
      ensures request.None? <==> IsBlank(newFaculty)
      ensures request.Some? ==> request.value == AddFacultyRequest(selectedInstitution, newFaculty)
    {
      if IsBlank(newFaculty) {
        return None;
      }
      request := Some(AddFacultyRequest(selectedInstitution, newFaculty));
    }

    /** `handleAddCourse`: no request at all for a blank name, otherwise the
        body sent to `/addCourse`. */
    method AddCourse() returns (request: Option<AddCourseRequest>)
      ensures request.None? <==> IsBlank(newCourse)
      ensures request.Some? ==> request.value == AddCourseRequest(selectedFaculty, newCourse)
    {
      if IsBlank(newCourse) {
        return None;
      }
      request := Some(AddCourseRequest(selectedFaculty, newCourse));
    }

    /** The add request resolved: the input is cleared and the faculties are
        reloaded from the listing when that fetch succeeds. */
    method FacultyAdded(reloaded: Option<seq<Faculty>>)
      modifies this`newFaculty, this`faculties
      ensures newFaculty == ""
      ensures faculties == if reloaded.Some? then reloaded.value else old(faculties)
    {
      newFaculty := "";
      if reloaded.Some? {
        faculties := reloaded.value;
      }
    }

    /** The add request resolved: the input is cleared and the courses are
        reloaded from the listing when that fetch succeeds. */
    method CourseAdded(reloaded: Option<seq<Course>>)
      modifies this`newCourse, this`courses
      ensures newCourse == ""
      ensures courses == if reloaded.Some? then reloaded.value else old(courses)
    {
      newCourse := "";
      if reloaded.Some? {
        courses := reloaded.value;
      }
    }

    /** `handleDeleteFaculty` once its request resolved (whatever the reply). */
    method FacultyDeleted(facultyId: int)
      modifies this`faculties
      ensures faculties == WithoutFaculty(old(faculties), facultyId)
    {
      faculties := WithoutFaculty(faculties, facultyId);
    }

    /** `handleDeleteCourse` once its request resolved (whatever the reply). */
    method CourseDeleted(courseId: int)
      modifies this`courses
      ensures courses == WithoutCourse(old(courses), courseId)
    {
      courses := WithoutCourse(courses, courseId);
    }

    /** `handleUpdateStatus` once its request settled. The list is rewritten
        whenever the request resolved, which includes a 400 or 404 reply:
        only a network failure (`resolved` false) leaves it alone. */
    method StatusUpdated(applicationId: int, status: string, resolved: bool)
      modifies this`applications
      ensures applications == if resolved then WithStatus(old(applications), applicationId, status)
                              else old(applications)
    {
      if resolved {
        applications := WithStatus(applications, applicationId, status);
      }
    }

    /** `handlePublishAdmissions`: refused before any request when no
        institution is selected, otherwise a release request for the
        selected institution. */
    method PublishAdmissions() returns (request: Option<string>)
      ensures request.None? <==> selectedInstitution == ""
      ensures request.Some? ==> request.value == selectedInstitution
    {
      if selectedInstitution == "" {
        return None;
      }
      request := Some(selectedInstitution);
    }

    /** The release reply arrived: a 2xx reply shows its message (or the
        default text when it has none); any other reply only raises an
        alert. */
    method AdmissionsPublished(reply: Reply)
      modifies this`successMessage
      ensures 200 <= reply.code < 300 ==>
                successMessage == if reply.text != "" then reply.text else ReleasedDefault
      ensures !(200 <= reply.code < 300) ==> successMessage == old(successMessage)
    {
      if 200 <= reply.code < 300 {
        successMessage := if reply.text != "" then reply.text else ReleasedDefault;
      }
    }
  }
}
