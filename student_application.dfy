/** The student's application page (src/pages/StudentApplication.tsx): the
    form, the lookup of an existing application, submission, the status
    view and resubmission. The signed-in user is fixed when the page is
    created; `None` stands for nobody signed in. */
module StudentApplication {
  import opened Types
  import opened Backend

  datatype User = User(id: string, email: Option<string>)

  /** The `profiles` row used to pre-fill the form. */
  datatype Profile = Profile(fullName: Option<string>, email: Option<string>)

  /** The thirteen text inputs of the form, as typed. */
  datatype Form = Form(
    fullName: string,
    studentId: string,
    dateOfBirth: string,
    gender: string,
    email: string,
    phoneNumber: string,
    address: string,
    gradeYearLevel: string,
    sectionProgram: string,
    educationLevel: string,
    parentGuardianName: string,
    guardianContact: string,
    guardianRelationship: string)

  const EmptyForm := Form("", "", "", "", "", "", "", "", "", "", "", "", "")

  /** The values the form's education-level select offers. */
  const FormEducationLevels: seq<string> := ["elementary", "junior_high", "senior_high", "college"]

  /** The patch resubmission sends: back to pending, reason cleared. */
  const ResubmitPatch := ApplicationPatch(Some(StatusName(Pending)), Some(None))

  /** JavaScript `s || null` on a string. */
  function OrNull(s: string): (r: Option<string>)
    ensures r.None? <==> s == ""
    ensures r.Some? ==> r.value == s
  {
    if s == "" then None else Some(s)
  }

  /** JavaScript `a || b` where `a` may be null. */
  function OrElse(a: Option<string>, b: string): string {
    if a.Some? && a.value != "" then a.value else b
  }

  /** No nullable column of the insert holds an empty string. */
  predicate NoEmptyOptionals(r: ApplicationInsert) {
    && r.dateOfBirth != Some("") && r.gender != Some("") && r.phoneNumber != Some("")
    && r.address != Some("") && r.sectionProgram != Some("") && r.parentGuardianName != Some("")
    && r.guardianContact != Some("") && r.guardianRelationship != Some("")
  }

  /** The `applicationData` object built by `handleSubmit`. */
  function ApplicationData(userId: string, f: Form): (r: ApplicationInsert)
    ensures r.status == Some(StatusName(Pending)) && r.rejectionReason == None
    ensures r.userId == userId
    ensures NoEmptyOptionals(r)
  {
    ApplicationInsert(
      userId, f.fullName, f.studentId, OrNull(f.dateOfBirth), OrNull(f.gender), f.email,
      OrNull(f.phoneNumber), OrNull(f.address), f.gradeYearLevel, OrNull(f.sectionProgram),
      f.educationLevel, OrNull(f.parentGuardianName), OrNull(f.guardianContact),
      OrNull(f.guardianRelationship), Some(StatusName(Pending)), None)
  }

  /** Reads the form back from an insert, null as "". */
  function FormOf(r: ApplicationInsert): Form {
    Form(r.fullName, r.studentId, OrEmpty(r.dateOfBirth), OrEmpty(r.gender), r.emailAddress,
         OrEmpty(r.phoneNumber), OrEmpty(r.address), r.gradeYearLevel, OrEmpty(r.sectionProgram),
         r.educationLevel, OrEmpty(r.parentGuardianName), OrEmpty(r.guardianContact),
         OrEmpty(r.guardianRelationship))
  }

  /** The insert loses nothing that was typed: required inputs pass through
      as given, and an optional input reads back as typed, empty ones
      having been stored as null. */
  lemma ApplicationDataRoundTrip(userId: string, f: Form)
    ensures FormOf(ApplicationData(userId, f)) == f
  {
  }

  /** Two forms with the same insert are the same form. */
  lemma ApplicationDataInjective(userId: string, f: Form, g: Form)
    requires ApplicationData(userId, f) == ApplicationData(userId, g)
    ensures f == g
  {
    ApplicationDataRoundTrip(userId, f);
    ApplicationDataRoundTrip(userId, g);
  }

  /** The browser refuses to submit while a `required` input is empty. */
  predicate RequiredFilled(f: Form) {
    f.fullName != "" && f.studentId != "" && f.email != "" && f.gradeYearLevel != "" && f.educationLevel != ""
  }

  /** The status view offers resubmission only for a rejected application. */
  predicate ResubmitOffered(a: Application) {
    a.status == StatusName(Rejected)
  }

  /** The status view shows the reason only when rejected and the reason
      is a non-empty string. */
  predicate ReasonShown(a: Application) {
    a.status == StatusName(Rejected) && a.rejectionReason.Some? && a.rejectionReason.value != ""
  }

  class ApplicationPage {
    const store: Store
    const user: Option<User>
    /** The application found for the user; while set, the status view
        replaces the form. */
    var existing: Option<Application>
    var form: Form

    ghost predicate Valid()
      reads this, store
    {
      store.Valid()
    }

    constructor (store: Store, user: Option<User>)
      requires store.Valid()
      ensures Valid()
      ensures this.store == store && this.user == user
      ensures existing == None && form == EmptyForm
    {
      this.store, this.user := store, user;
      existing, form := None, EmptyForm;
    }

    predicate ShowsStatusView()
      reads this
    {
      existing.Some?
    }

    /** The form, and hence its submit button, is rendered only when no
        application is loaded. */
    predicate SubmitOffered()
      reads this
    {
      !ShowsStatusView() && RequiredFilled(form)
    }

    /** The mount effect: look up the user's application; if there is none,
        pre-fill name and email from the profile (`None` when the profile
        lookup returned nothing). */
    method CheckExisting(profile: Option<Profile>, fails: bool)
      requires Valid()
      modifies this
      ensures Valid()
      ensures user.None? ==> existing == old(existing) && form == old(form)
      ensures user.Some? && !fails && |store.UserApplicationIds(user.value.id)| == 1 ==>
        && existing.Some?
        && store.UserApplicationIds(user.value.id) == {existing.value.id}
        && store.applications[existing.value.id] == existing.value
        && form == old(form)
      ensures user.Some? && !(!fails && |store.UserApplicationIds(user.value.id)| == 1) ==>
        && existing == old(existing)
        && form == (if profile.Some?
                    then old(form).(fullName := OrElse(profile.value.fullName, ""),
                                    email := OrElse(profile.value.email, OrElse(user.value.email, "")))
                    else old(form))
    {
      if user.None? {
        return;
      }
      var found := store.SelectApplicationByUser(user.value.id, fails);
      if found.Some? {
        existing := found;
      } else if profile.Some? {
        form := form.(fullName := OrElse(profile.value.fullName, ""),
                      email := OrElse(profile.value.email, OrElse(user.value.email, "")));
      }
    }

    /** `handleSubmit`: insert the form as a new pending application. The
        handler itself does not look at `existing`. */
    method Submit(now: Timestamp, fails: bool) returns (ok: bool)
      requires Valid()
      modifies store
      ensures Valid()
      ensures ok == (user.Some? && !fails)
      ensures !ok ==> store.applications == old(store.applications) && store.nextId == old(store.nextId)
      ensures ok ==> old(store.nextId) !in old(store.applications) && store.nextId == old(store.nextId) + 1
      ensures ok ==> store.applications == old(store.applications)[old(store.nextId) :=
                       ApplicationRow(ApplicationData(user.value.id, form), old(store.nextId), now, store.statusDefault)]
      ensures ok ==> store.applications[old(store.nextId)].status == StatusName(Pending)
      ensures ok ==> store.applications[old(store.nextId)].rejectionReason == None
      ensures ok ==> store.UserApplicationIds(user.value.id) == old(store.UserApplicationIds(user.value.id)) + {old(store.nextId)}
      ensures store.records == old(store.records)
    {
      if user.None? {
        return false;
      }
      ok := store.InsertApplication(ApplicationData(user.value.id, form), now, fails);
    }

    /** `handleResubmit`: put the loaded application back to pending, then
        reload it. The handler does not check the status; a reload that
        returns nothing clears `existing`. */
    method Resubmit(fails: bool, refreshFails: bool) returns (ok: bool)
      requires Valid()
      modifies this, store
      ensures Valid() && form == old(form)
      ensures ok == (user.Some? && old(existing).Some? && !fails)
      ensures !ok ==> existing == old(existing) && store.applications == old(store.applications)
      ensures ok ==> var id := old(existing).value.id;
        && store.applications == (if id in old(store.applications)
                                  then old(store.applications)[id := ApplyPatch(old(store.applications)[id], ResubmitPatch)]
                                  else old(store.applications))
        && existing == (if !refreshFails && id in store.applications then Some(store.applications[id]) else None)
      ensures ok && existing.Some? ==>
        && existing.value.status == StatusName(Pending) && existing.value.rejectionReason == None
        && SameContent(old(store.applications)[existing.value.id], existing.value)
      ensures store.records == old(store.records) && store.nextId == old(store.nextId)
    {
      if user.None? || existing.None? {
        return false;
      }
      var id := existing.value.id;
      ok := store.UpdateApplication(id, ResubmitPatch, fails);
      if ok {
        existing := store.SelectApplicationById(id, refreshFails);
      }
    }
  }
}
