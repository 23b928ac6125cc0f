/** The admin review page (src/pages/StudentApplications.tsx): the list of
    applications, the detail dialog, and the approve / reject decisions. */
module StudentApplications {
  import opened Types
  import opened Listing
  import opened Backend

  // ---------------------------------------------------------------------
  // String.prototype.trim, as far as the reject guard needs it

  /** ECMAScript WhiteSpace and LineTerminator code points. */
  predicate IsWhitespace(c: char) {
    || c == '\t' || c == '\n' || c == '\U{000B}' || c == '\U{000C}' || c == '\r' || c == ' '
    || c == '\U{00A0}' || c == '\U{1680}' || ('\U{2000}' <= c <= '\U{200A}')
    || c == '\U{2028}' || c == '\U{2029}' || c == '\U{202F}' || c == '\U{205F}'
    || c == '\U{3000}' || c == '\U{FEFF}'
  }

  ghost predicate IsBlank(s: string) {
    forall i :: 0 <= i < |s| ==> IsWhitespace(s[i])
  }

  function TrimStart(s: string): string {
    if s != [] && IsWhitespace(s[0]) then TrimStart(s[1..]) else s
  }

  function TrimEnd(s: string): string {
    if s != [] && IsWhitespace(s[|s| - 1]) then TrimEnd(s[..|s| - 1]) else s
  }

  function Trim(s: string): string {
    TrimEnd(TrimStart(s))
  }

  lemma {:induction false} TrimStartEmptyIffBlank(s: string)
    ensures TrimStart(s) == "" <==> IsBlank(s)
    ensures TrimStart(s) != "" ==> !IsWhitespace(TrimStart(s)[0])
  {
    if s != [] && IsWhitespace(s[0]) {
      TrimStartEmptyIffBlank(s[1..]);
      assert IsBlank(s) <==> IsBlank(s[1..]) by {
        if IsBlank(s[1..]) {
          forall i | 0 <= i < |s| ensures IsWhitespace(s[i]) {
            if i > 0 { assert s[i] == s[1..][i - 1]; }
          }
        }
        if IsBlank(s) {
          forall i | 0 <= i < |s[1..]| ensures IsWhitespace(s[1..][i]) {
            assert s[1..][i] == s[i + 1];
          }
        }
      }
    }
  }

  lemma {:induction false} TrimEndKeepsHead(s: string)
    requires s != [] && !IsWhitespace(s[0])
    ensures TrimEnd(s) != "" && TrimEnd(s)[0] == s[0]
  {
    if IsWhitespace(s[|s| - 1]) {
      TrimEndKeepsHead(s[..|s| - 1]);
    }
  }

  /** `!s.trim()` holds exactly for strings of whitespace only. */
  lemma TrimEmptyIffBlank(s: string)
    ensures Trim(s) == "" <==> IsBlank(s)
  {
    TrimStartEmptyIffBlank(s);
    if TrimStart(s) != "" {
      TrimEndKeepsHead(TrimStart(s));
    }
  }

  // ---------------------------------------------------------------------
  // Decisions

  /** The dialog renders Approve and Reject only for a pending application. */
  predicate DecisionOffered(a: Application) {
    a.status == StatusName(Pending)
  }

  const ApprovePatch := ApplicationPatch(Some(StatusName(Approved)), None)

  /** The reject patch carries the reason exactly as typed. */
  function RejectPatch(reason: string): ApplicationPatch {
    ApplicationPatch(Some(StatusName(Rejected)), Some(Some(reason)))
  }

  /** The `student_records` insert built from an application on approval. */
  function RecordFromApplication(a: Application): RecordInsert {
    RecordInsert(
      a.fullName, a.studentId, a.dateOfBirth, a.gender, Some(a.emailAddress), a.phoneNumber,
      a.address, a.gradeYearLevel, a.sectionProgram, a.educationLevel, a.parentGuardianName,
      a.guardianContact, a.guardianRelationship, Some("Active"), None, None)
  }

  /** `rec` is the record approval derives from `a`: the thirteen personal,
      academic and guardian fields equal the application's, the status is
      "Active", and the two record-only fields are unset. */
  predicate DerivedFrom(rec: StudentRecord, a: Application) {
    && rec.fullName == a.fullName && rec.studentId == a.studentId
    && rec.dateOfBirth == a.dateOfBirth && rec.gender == a.gender
    && rec.emailAddress == Some(a.emailAddress) && rec.phoneNumber == a.phoneNumber
    && rec.address == a.address && rec.gradeYearLevel == a.gradeYearLevel
    && rec.sectionProgram == a.sectionProgram
    && EducationLevelName(rec.educationLevel) == a.educationLevel
    && rec.parentGuardianName == a.parentGuardianName && rec.guardianContact == a.guardianContact
    && rec.guardianRelationship == a.guardianRelationship
    && rec.currentStatus == "Active" && rec.averageGrade == None && rec.subjectsCourses == None
  }

  /** The backend accepts the derived record exactly when the application's
      free-text level is one of the four enum values. */
  lemma ApprovalAcceptedIffEnumLevel(a: Application)
    ensures AcceptableRecord(RecordFromApplication(a)) <==> a.educationLevel in EducationLevelValues
  {
  }

  /** Of the four levels the application form offers, only senior_high and
      college are record levels: an elementary or junior_high application
      can never be approved. */
  lemma FormLevelsNotAllApprovable(a: Application)
    requires a.educationLevel in ["elementary", "junior_high", "senior_high", "college"]
    ensures AcceptableRecord(RecordFromApplication(a)) <==> a.educationLevel in ["senior_high", "college"]
  {
  }

  /** Whatever id, creation time and column default the store picks, the
      inserted row is derived from the application. */
  lemma ApprovalDerivesRecord(a: Application, id: Id, now: Timestamp, currentStatusDefault: string)
    requires AcceptableRecord(RecordFromApplication(a))
    ensures DerivedFrom(RecordRow(RecordFromApplication(a), id, now, currentStatusDefault), a)
  {
  }

  /** Nothing links a record back to its application: the derived insert
      depends neither on the application's id, owner and creation time nor
      on its decision state. */
  lemma RecordIgnoresIdentityAndDecision(a: Application, b: Application)
    requires SameContent(a.(id := b.id, userId := b.userId, createdAt := b.createdAt), b)
    ensures RecordFromApplication(a) == RecordFromApplication(b)
  {
  }

  datatype ApproveOutcome = RecordInsertFailed | StatusUpdateFailed | ApprovedAndCreated

  class ReviewPage {
    const store: Store
    /** The list as last fetched. */
    var applications: seq<Application>
    var selected: Option<Application>
    var rejectionReason: string
    var dialogOpen: bool

    ghost predicate Valid()
      reads this, store
    {
      store.Valid()
    }

    constructor (store: Store)
      requires store.Valid()
      ensures Valid() && this.store == store
      ensures applications == [] && selected == None && rejectionReason == "" && !dialogOpen
    {
      this.store := store;
      applications, selected, rejectionReason, dialogOpen := [], None, "", false;
    }

    /** Approve and Reject are on screen. */
    predicate ActionsOffered()
      reads this
    {
      dialogOpen && selected.Some? && DecisionOffered(selected.value)
    }

    /** `fetchApplications`: replace the list with every application,
        newest first; on an error keep the previous list. */
    method FetchApplications(fails: bool)
      requires Valid()
      modifies this`applications
      ensures Valid()
      ensures fails ==> applications == old(applications)
      ensures !fails ==> IsListingOf(applications, store.applications, AppCreatedAt)
    {
      var r := store.SelectApplications(fails);
      if r.Some? {
        applications := r.value;
      }
    }

    /** `openViewDialog`. */
    method OpenViewDialog(a: Application)
      requires a in applications
      modifies this
      ensures selected == Some(a) && rejectionReason == "" && dialogOpen
      ensures applications == old(applications)
    {
      selected, rejectionReason, dialogOpen := Some(a), "", true;
    }

    /** The reason text area's `onChange`. */
    method EditReason(text: string)
      modifies this`rejectionReason
      ensures rejectionReason == text
    {
      rejectionReason := text;
    }

    /** The dialog's `onOpenChange(false)`. */
    method CloseDialog()
      modifies this`dialogOpen
      ensures !dialogOpen
    {
      dialogOpen := false;
    }

    /** `approveApplication`: insert the derived record; only if that
        succeeds set the application's status to approved. There is no
        rollback of the record when the status update fails. */
    method Approve(a: Application, now: Timestamp, insertFails: bool, updateFails: bool, fetchFails: bool)
      returns (outcome: ApproveOutcome)
      requires Valid()
      modifies this, store
      ensures Valid()
      ensures outcome.RecordInsertFailed? <==> insertFails || !AcceptableRecord(RecordFromApplication(a))
      ensures outcome.StatusUpdateFailed? <==> !outcome.RecordInsertFailed? && updateFails
      // a failed insert changes nothing at all
      ensures outcome.RecordInsertFailed? ==>
        && store.records == old(store.records) && store.applications == old(store.applications)
        && store.nextId == old(store.nextId)
        && applications == old(applications) && dialogOpen == old(dialogOpen)
      // otherwise exactly one new record, derived from the application
      ensures !outcome.RecordInsertFailed? ==>
        && old(store.nextId) !in old(store.records) && old(store.nextId) in store.records
        && store.nextId == old(store.nextId) + 1
        && store.records == old(store.records)[old(store.nextId) := store.records[old(store.nextId)]]
        && store.records[old(store.nextId)].id == old(store.nextId)
        && DerivedFrom(store.records[old(store.nextId)], a)
      // the status update touches only the status of that one id
      ensures outcome.StatusUpdateFailed? ==>
        store.applications == old(store.applications) && applications == old(applications) && dialogOpen == old(dialogOpen)
      ensures outcome.ApprovedAndCreated? ==>
        && store.applications == (if a.id in old(store.applications)
                                  then old(store.applications)[a.id := ApplyPatch(old(store.applications)[a.id], ApprovePatch)]
                                  else old(store.applications))
        && !dialogOpen
        && (fetchFails ==> applications == old(applications))
        && (!fetchFails ==> IsListingOf(applications, store.applications, AppCreatedAt))
      ensures selected == old(selected) && rejectionReason == old(rejectionReason)
    {
      var ins := RecordFromApplication(a);
      var inserted := store.InsertRecord(ins, now, insertFails);
      if !inserted {
        return RecordInsertFailed;
      }
      ApprovalDerivesRecord(a, old(store.nextId), now, store.currentStatusDefault);
      var updated := store.UpdateApplication(a.id, ApprovePatch, updateFails);
      if !updated {
        return StatusUpdateFailed;
      }
      outcome := ApprovedAndCreated;
      dialogOpen := false;
      FetchApplications(fetchFails);
    }

    /** `rejectApplication`: refuse a blank reason without any write;
        otherwise set status and reason, and on success clear the reason
        input. */
    method Reject(id: Id, updateFails: bool, fetchFails: bool) returns (ok: bool)
      requires Valid()
      modifies this, store
      ensures Valid()
      ensures Trim(old(rejectionReason)) == "" ==>
        && !ok && store.applications == old(store.applications)
        && rejectionReason == old(rejectionReason) && dialogOpen == old(dialogOpen)
      ensures ok == (Trim(old(rejectionReason)) != "" && !updateFails)
      ensures !ok ==> store.applications == old(store.applications) && applications == old(applications)
                      && rejectionReason == old(rejectionReason) && dialogOpen == old(dialogOpen)
      ensures ok ==>
        && store.applications == (if id in old(store.applications)
                                  then old(store.applications)[id := ApplyPatch(old(store.applications)[id], RejectPatch(old(rejectionReason)))]
                                  else old(store.applications))
        && rejectionReason == "" && !dialogOpen
        && (fetchFails ==> applications == old(applications))
        && (!fetchFails ==> IsListingOf(applications, store.applications, AppCreatedAt))
      ensures store.records == old(store.records) && store.nextId == old(store.nextId)
      ensures selected == old(selected)
    {
      if Trim(rejectionReason) == "" {
        return false;
      }
      ok := store.UpdateApplication(id, RejectPatch(rejectionReason), updateFails);
      if ok {
        dialogOpen := false;
        rejectionReason := "";
        FetchApplications(fetchFails);
      }
    }
  }
}
