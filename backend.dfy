/** The hosted backend, abstracted to an in-memory store of the two tables
    the workflow touches. Every call may fail for reasons outside the model
    (connectivity, row-level security, constraints the source does not
    show); the caller passes that choice in as `fails`, and a failed call
    changes nothing. */
module Backend {
  import opened Types
  import opened Listing

  function AppCreatedAt(a: Application): Timestamp { a.createdAt }
  function AppId(a: Application): Id { a.id }
  function RecordCreatedAt(r: StudentRecord): Timestamp { r.createdAt }
  function RecordId(r: StudentRecord): Id { r.id }

  class Store {
    var applications: map<Id, Application>
    var records: map<Id, StudentRecord>
    /** The next id the store hands out; ids are never reused. */
    var nextId: nat
    /** Column defaults for an omitted `status` / `current_status`; the
        schema that sets them is not part of the source. */
    const statusDefault: string
    const currentStatusDefault: string

    ghost predicate Valid()
      reads this
    {
      && (forall k :: k in applications ==> k < nextId && applications[k].id == k)
      && (forall k :: k in records ==> k < nextId && records[k].id == k)
    }

    constructor (statusDefault: string, currentStatusDefault: string)
      ensures Valid()
      ensures applications == map[] && records == map[] && nextId == 0
      ensures this.statusDefault == statusDefault && this.currentStatusDefault == currentStatusDefault
    {
      applications, records, nextId := map[], map[], 0;
      this.statusDefault, this.currentStatusDefault := statusDefault, currentStatusDefault;
    }

    /** The ids of the application rows owned by `userId`. */
    function UserApplicationIds(userId: string): (ids: set<Id>)
      reads this
      ensures forall k :: k in ids <==> k in applications && applications[k].userId == userId
    {
      set k | k in applications && applications[k].userId == userId
    }

    /** `insert` into `student_applications`. */
    method InsertApplication(ins: ApplicationInsert, now: Timestamp, fails: bool) returns (ok: bool)
      requires Valid()
      modifies this
      ensures Valid()
      ensures ok == !fails
      ensures ok ==> old(nextId) !in old(applications)
      ensures ok ==> applications == old(applications)[old(nextId) := ApplicationRow(ins, old(nextId), now, statusDefault)]
      ensures ok ==> nextId == old(nextId) + 1
      ensures !ok ==> applications == old(applications) && nextId == old(nextId)
      // the new id joins its owner's ids; no other user's ids change
      ensures ok ==> forall u :: UserApplicationIds(u) ==
                       old(UserApplicationIds(u)) + (if u == ins.userId then {old(nextId)} else {})
      ensures records == old(records)
    {
      ok := !fails;
      if ok {
        applications := applications[nextId := ApplicationRow(ins, nextId, now, statusDefault)];
        nextId := nextId + 1;
        forall u
          ensures UserApplicationIds(u) == old(UserApplicationIds(u)) + (if u == ins.userId then {old(nextId)} else {})
        {
        }
      }
    }

    /** `update(patch).eq("id", id)` on `student_applications`; a missing id
        matches no row and is not an error. */
    method UpdateApplication(id: Id, patch: ApplicationPatch, fails: bool) returns (ok: bool)
      requires Valid()
      modifies this
      ensures Valid()
      ensures ok == !fails
      ensures applications == if ok && id in old(applications)
                              then old(applications)[id := ApplyPatch(old(applications)[id], patch)]
                              else old(applications)
      // a patch never moves a row to another owner
      ensures forall u :: UserApplicationIds(u) == old(UserApplicationIds(u))
      ensures records == old(records) && nextId == old(nextId)
    {
      ok := !fails;
      if ok && id in applications {
        applications := applications[id := ApplyPatch(applications[id], patch)];
      }
      forall u ensures UserApplicationIds(u) == old(UserApplicationIds(u)) {
      }
    }

    /** `select("*").order("created_at", { ascending: false })` on
        `student_applications`. */
    method SelectApplications(fails: bool) returns (r: Option<seq<Application>>)
      requires Valid()
      ensures r.None? <==> fails
      ensures r.Some? ==> IsListingOf(r.value, applications, AppCreatedAt)
    {
      if fails {
        r := None;
      } else {
        OrderedListingIsListing(applications, nextId, AppId, AppCreatedAt);
        r := Some(OrderedListing(applications, nextId, AppCreatedAt));
      }
    }

    /** `select("*").eq("user_id", userId).maybeSingle()`: the row when
        exactly one matches; no data when none matches, when several match
        (an error the caller never inspects) or when the call fails. */
    method SelectApplicationByUser(userId: string, fails: bool) returns (r: Option<Application>)
      requires Valid()
      ensures r.Some? <==> !fails && |UserApplicationIds(userId)| == 1
      ensures r.Some? ==> UserApplicationIds(userId) == {r.value.id} && applications[r.value.id] == r.value
    {
      var ids := UserApplicationIds(userId);
      if fails || |ids| != 1 {
        r := None;
      } else {
        var k :| k in ids;
        assert ids == {k} by {
          assert |ids - {k}| == 0;
          assert ids - {k} == {};
        }
        r := Some(applications[k]);
      }
    }

    /** `select("*").eq("id", id).maybeSingle()`. */
    method SelectApplicationById(id: Id, fails: bool) returns (r: Option<Application>)
      requires Valid()
      ensures r.Some? <==> !fails && id in applications
      ensures r.Some? ==> r.value == applications[id] && r.value.id == id
    {
      r := if !fails && id in applications then Some(applications[id]) else None;
    }

    /** `insert` into `student_records`; the backend refuses a level that
        is not an `education_level` value. */
    method InsertRecord(ins: RecordInsert, now: Timestamp, fails: bool) returns (ok: bool)
      requires Valid()
      modifies this
      ensures Valid()
      ensures ok == (!fails && AcceptableRecord(ins))
      ensures ok ==> old(nextId) !in old(records)
      ensures ok ==> records == old(records)[old(nextId) := RecordRow(ins, old(nextId), now, currentStatusDefault)]
      ensures ok ==> nextId == old(nextId) + 1
      ensures !ok ==> records == old(records) && nextId == old(nextId)
      ensures applications == old(applications)
    {
      ok := !fails && AcceptableRecord(ins);
      if ok {
        records := records[nextId := RecordRow(ins, nextId, now, currentStatusDefault)];
        nextId := nextId + 1;
      }
    }

    /** `update(payload).eq("id", id)` on `student_records`. */
    method UpdateRecord(id: Id, ins: RecordInsert, fails: bool) returns (ok: bool)
      requires Valid()
      modifies this
      ensures Valid()
      ensures ok == (!fails && AcceptableRecord(ins))
      ensures records == if ok && id in old(records)
                         then old(records)[id := UpdatedRecord(old(records)[id], ins)]
                         else old(records)
      ensures applications == old(applications) && nextId == old(nextId)
    {
      ok := !fails && AcceptableRecord(ins);
      if ok && id in records {
        records := records[id := UpdatedRecord(records[id], ins)];
      }
    }

    /** `delete().eq("id", id)` on `student_records`. */
    method DeleteRecord(id: Id, fails: bool) returns (ok: bool)
      requires Valid()
      modifies this
      ensures Valid()
      ensures ok == !fails
      ensures records == if ok then old(records) - {id} else old(records)
      ensures applications == old(applications) && nextId == old(nextId)
    {
      ok := !fails;
      if ok {
        records := records - {id};
      }
    }

    /** `select("*").order("created_at", { ascending: false })` on
        `student_records`. */
    method SelectRecords(fails: bool) returns (r: Option<seq<StudentRecord>>)
      requires Valid()
      ensures r.None? <==> fails
      ensures r.Some? ==> IsListingOf(r.value, records, RecordCreatedAt)
    {
      if fails {
        r := None;
      } else {
        OrderedListingIsListing(records, nextId, RecordId, RecordCreatedAt);
        r := Some(OrderedListing(records, nextId, RecordCreatedAt));
      }
    }
  }
}
