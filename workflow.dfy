/** How the dashboard's copy of the application list relates to the store:
    after a successful status update the optimistic rewrite is exactly what a
    fresh retrieval would return, while after a failed one the two part
    ways. The closing harnesses walk the submit, accept and back-to-pending
    sequence through the store's routes. */
module Workflow {
  import opened Sequences
  import opened Tables
  import opened Dashboard
  import opened Server

  /** The dashboard's rewrite of one list, split at its first entry. */
  lemma WithStatusCons(e: Enriched, rest: seq<Enriched>, applicationId: int, status: string)
    ensures WithStatus([e] + rest, applicationId, status)
            == WithStatus([e], applicationId, status) + WithStatus(rest, applicationId, status)
  {
    var l := WithStatus([e] + rest, applicationId, status);
    var r := WithStatus([e], applicationId, status) + WithStatus(rest, applicationId, status);
    assert |l| == |r|;
    forall k | 0 <= k < |l|
      ensures l[k] == r[k]
    {
      if k > 0 {
        assert ([e] + rest)[k] == rest[k - 1];
      }
    }
  }

  /** Retrieving after the store's `UPDATE` gives the dashboard's rewrite of
      the retrieval before it, for any list of rows. */
  lemma {:induction false} RetrieveFromAfterSetStatus(db: Db, apps: seq<Application>, institutionId: int,
                                                      applicationId: int, status: string)
    ensures RetrieveFrom(db, SetStatus(apps, applicationId, status), institutionId)
            == WithStatus(RetrieveFrom(db, apps, institutionId), applicationId, status)
  {
    if apps != [] {
      var a := apps[0];
      var a' := if a.id == applicationId then a.(status := status) else a;
      var updated := SetStatus(apps, applicationId, status);
      assert updated[0] == a' && updated[1..] == SetStatus(apps[1..], applicationId, status);
      RetrieveFromAfterSetStatus(db, apps[1..], institutionId, applicationId, status);
      var rest := RetrieveFrom(db, apps[1..], institutionId);
      if Retrieved(db, institutionId, a) {
        WithStatusCons(Enrich(db, a), rest, applicationId, status);
      }
    }
  }

  /** After a successful status update, the dashboard's optimistic list is
      exactly what the store now returns for the institution. */
  lemma OptimisticUpdateMatchesStore(db: Db, institutionId: int, applicationId: int, status: string)
    ensures Retrieve(db.(applications := SetStatus(db.applications, applicationId, status)), institutionId)
            == WithStatus(Retrieve(db, institutionId), applicationId, status)
  {
    var db' := db.(applications := SetStatus(db.applications, applicationId, status));
    RetrieveFromSameJoins(db, db', db'.applications, institutionId);
    RetrieveFromAfterSetStatus(db, db.applications, institutionId, applicationId, status);
  }

  /** The dashboard rewrites its list even when the update failed. For a
      list that matched the store, and a status sent by one of its buttons,
      the failure that can happen is a 500 from the store; the store kept its
      table, so the list no longer matches it: the entry shows a status the
      store never recorded. */
  lemma RefusedUpdateDiverges(db: Db, institutionId: int, k: nat, status: string)
    requires k < |Retrieve(db, institutionId)|
    requires Retrieve(db, institutionId)[k].app.status != status
    ensures WithStatus(Retrieve(db, institutionId), Retrieve(db, institutionId)[k].app.id, status)
            != Retrieve(db, institutionId)
  {
    var view := Retrieve(db, institutionId);
    assert WithStatus(view, view[k].app.id, status)[k].app.status == status;
  }

  /** Submitting without a file to an institution whose catalog rows exist:
      the next retrieval returns that one application, with the joined names,
      no picture URL and the table's default status. */
  method SubmissionScenario(defaultStatus: string)
  {
    var store := new Store();
    var _, _ := store.AddInstitution("I", 1, None);
    var _ := store.AddFaculty(1, "F", 1, None);
    var _, _ := store.AddCourse(1, "C", 1, None);
    var reply := store.Apply("A", "a@x.com", "1", 1, 1, 1, None, 1, defaultStatus, false, true);
    assert reply.code == 200;

    var a := Application(1, "A", "a@x.com", "1", 1, 1, 1, None, defaultStatus);
    var catalog := Db([Institution(1, "I")], [Faculty(1, 1, "F")], [Course(1, 1, "C")], [], []);
    assert store.Snapshot() == catalog.(applications := [] + [a]);
    assert Retrieved(catalog, 1, a);
    RetrieveAfterInsert(catalog, a, 1);
    var _, rows := store.InstitutionApplications(1, None);
    assert rows == [Enrich(catalog, a)];
    assert rows[0].app.status == defaultStatus && rows[0].pictureUrl == None;
    assert rows[0].institutionName == "I" && rows[0].facultyName == "F" && rows[0].courseName == "C";
  }

  /** The submission is answered 200 even when its insert never lands; the
      institution's retrieval then stays empty. */
  method LostSubmissionScenario(defaultStatus: string)
  {
    var store := new Store();
    var _, _ := store.AddInstitution("I", 1, None);
    var _ := store.AddFaculty(1, "F", 1, None);
    var _, _ := store.AddCourse(1, "C", 1, None);
    var reply := store.Apply("A", "a@x.com", "1", 1, 1, 1, None, 1, defaultStatus, false, false);
    assert reply == Reply(200, "Application submitted successfully!");
    var _, rows := store.InstitutionApplications(1, None);
    assert rows == [];
  }

  /** Accepting the application, then marking it Pending again, succeeds
      both times, and the row ends with the last status sent. */
  method AcceptThenPendingScenario(a: Application)
  {
    var store := new Store();
    var _ := store.Apply(a.name, a.email, a.phone, a.institutionId, a.facultyId, a.courseId,
                         a.resultFile, a.id, a.status, false, true);
    assert store.applications == [a];

    assert CheckStatus(Some(Accepted)) == Ok(Accepted);
    assert MatchedRows([a], a.id) == 1;
    var reply := store.UpdateApplicationStatus(a.id, Some(Accepted), None);
    assert reply.code == 200;
    SetStatusAt([a], a.id, Accepted);
    assert store.applications == [a.(status := Accepted)];

    assert CheckStatus(Some(Pending)) == Ok(Pending);
    assert MatchedRows([a.(status := Accepted)], a.id) == 1;
    reply := store.UpdateApplicationStatus(a.id, Some(Pending), None);
    assert reply.code == 200;
    SetStatusAt([a.(status := Accepted)], a.id, Pending);
    assert store.applications == [a.(status := Pending)];
  }

  /** An update for an id no row carries is a 404 and changes nothing. */
  method UnknownIdScenario(a: Application)
  {
    var store := new Store();
    var _ := store.Apply(a.name, a.email, a.phone, a.institutionId, a.facultyId, a.courseId,
                         a.resultFile, a.id, a.status, false, true);
    assert store.applications == [a];

    assert CheckStatus(Some(Rejected)) == Ok(Rejected);
    assert MatchedRows([a], a.id + 1) == 0;
    var reply := store.UpdateApplicationStatus(a.id + 1, Some(Rejected), None);
    assert reply == Reply(404, "Application not found");
    assert store.applications == [a];
  }

  /** A status outside the closed set is a 400 and changes nothing. */
  method InvalidStatusScenario(a: Application)
  {
    var store := new Store();
    var _ := store.Apply(a.name, a.email, a.phone, a.institutionId, a.facultyId, a.courseId,
                         a.resultFile, a.id, a.status, false, true);
    assert store.applications == [a];

    assert "Approved" !in ValidStatuses;
    var reply := store.UpdateApplicationStatus(a.id, Some("Approved"), None);
    assert reply == Reply(400, "Invalid status");
    assert store.applications == [a];
  }
}
