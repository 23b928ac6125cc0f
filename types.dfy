/** Row shapes, enums and constants of the generated schema typing
    (src/integrations/supabase/types.ts), plus the status convention the
    application pages follow on top of the free-text `status` column. */
module Types {

  datatype Option<+T> = None | Some(value: T)

  /** Opaque row identifier, assigned by the store. */
  type Id = nat

  /** Server-assigned creation time, compared only for ordering. */
  type Timestamp = int

  /** JavaScript `x || ""` on a nullable string. */
  function OrEmpty(o: Option<string>): string {
    if o.Some? then o.value else ""
  }

  // ---------------------------------------------------------------------
  // Enums and the Constants table

  datatype AppRole = Admin | Student

  datatype EducationLevel = GradeSchool | HighSchool | SeniorHigh | College

  /** `Constants.public.Enums.app_role`, in declaration order. */
  const AppRoleValues: seq<string> := ["admin", "student"]

  /** `Constants.public.Enums.education_level`, in declaration order. */
  const EducationLevelValues: seq<string> := ["grade_school", "high_school", "senior_high", "college"]

  function AppRoleName(r: AppRole): string {
    match r
    case Admin => "admin"
    case Student => "student"
  }

  function EducationLevelName(l: EducationLevel): string {
    match l
    case GradeSchool => "grade_school"
    case HighSchool => "high_school"
    case SeniorHigh => "senior_high"
    case College => "college"
  }

  /** How the backend reads an `app_role` value sent as text. */
  function ParseAppRole(s: string): (r: Option<AppRole>)
    ensures r.Some? <==> s in AppRoleValues
    ensures r.Some? ==> AppRoleName(r.value) == s
  {
    if s == "admin" then Some(Admin)
    else if s == "student" then Some(Student)
    else None
  }

  /** How the backend reads an `education_level` value sent as text:
      anything outside the enum is refused. */
  function ParseEducationLevel(s: string): (r: Option<EducationLevel>)
    ensures r.Some? <==> s in EducationLevelValues
    ensures r.Some? ==> EducationLevelName(r.value) == s
  {
    if s == "grade_school" then Some(GradeSchool)
    else if s == "high_school" then Some(HighSchool)
    else if s == "senior_high" then Some(SeniorHigh)
    else if s == "college" then Some(College)
    else None
  }

  /** The enum type and the Constants table agree: the table lists each
      enum value exactly once, in declaration order, and nothing else. */
  lemma EducationLevelConstantsMatchEnum()
    ensures |EducationLevelValues| == 4
    ensures EducationLevelValues == [EducationLevelName(GradeSchool), EducationLevelName(HighSchool),
                                     EducationLevelName(SeniorHigh), EducationLevelName(College)]
    ensures forall i, j :: 0 <= i < j < |EducationLevelValues| ==> EducationLevelValues[i] != EducationLevelValues[j]
    ensures forall s :: s in EducationLevelValues <==> exists l :: EducationLevelName(l) == s
  {
    forall s | s in EducationLevelValues ensures exists l :: EducationLevelName(l) == s {
      var l := ParseEducationLevel(s).value;
      assert EducationLevelName(l) == s;
    }
  }

  lemma AppRoleConstantsMatchEnum()
    ensures AppRoleValues == [AppRoleName(Admin), AppRoleName(Student)]
    ensures AppRoleValues[0] != AppRoleValues[1]
    ensures forall s :: s in AppRoleValues <==> exists r :: AppRoleName(r) == s
  {
    forall s | s in AppRoleValues ensures exists r :: AppRoleName(r) == s {
      var r := ParseAppRole(s).value;
      assert AppRoleName(r) == s;
    }
  }

  lemma EducationLevelRoundTrip(l: EducationLevel)
    ensures ParseEducationLevel(EducationLevelName(l)) == Some(l)
  {
  }

  lemma AppRoleRoundTrip(r: AppRole)
    ensures ParseAppRole(AppRoleName(r)) == Some(r)
  {
  }

  // ---------------------------------------------------------------------
  // The status convention of the application pages. The column itself is
  // free text; only these three values are ever written by the pages.

  datatype Status = Pending | Approved | Rejected

  function StatusName(s: Status): string {
    match s
    case Pending => "pending"
    case Approved => "approved"
    case Rejected => "rejected"
  }

  function ParseStatus(text: string): (r: Option<Status>)
    ensures r.Some? ==> StatusName(r.value) == text
    ensures r.None? ==> forall s :: StatusName(s) != text
  {
    if text == "pending" then Some(Pending)
    else if text == "approved" then Some(Approved)
    else if text == "rejected" then Some(Rejected)
    else None
  }

  lemma StatusRoundTrip(s: Status)
    ensures ParseStatus(StatusName(s)) == Some(s)
  {
  }

  // ---------------------------------------------------------------------
  // student_applications

  /** A `student_applications` row. `education_level` and `status` are free
      text; `rejection_reason` is written by the pages although the
      generated row type does not list it. */
  datatype Application = Application(
    id: Id,
    userId: string,
    fullName: string,
    studentId: string,
    dateOfBirth: Option<string>,
    gender: Option<string>,
    emailAddress: string,
    phoneNumber: Option<string>,
    address: Option<string>,
    gradeYearLevel: string,
    sectionProgram: Option<string>,
    educationLevel: string,
    parentGuardianName: Option<string>,
    guardianContact: Option<string>,
    guardianRelationship: Option<string>,
    status: string,
    rejectionReason: Option<string>,
    createdAt: Timestamp)

  /** The `student_applications` Insert shape: the six required columns are
      plain values, nullable columns are `Option`, and `status` may be
      omitted (`None`), in which case the column default applies. */
  datatype ApplicationInsert = ApplicationInsert(
    userId: string,
    fullName: string,
    studentId: string,
    dateOfBirth: Option<string>,
    gender: Option<string>,
    emailAddress: string,
    phoneNumber: Option<string>,
    address: Option<string>,
    gradeYearLevel: string,
    sectionProgram: Option<string>,
    educationLevel: string,
    parentGuardianName: Option<string>,
    guardianContact: Option<string>,
    guardianRelationship: Option<string>,
    status: Option<string>,
    rejectionReason: Option<string>)

  /** An Update patch on `student_applications` restricted to the two
      columns the pages ever update: `None` leaves a column as it is,
      `Some(v)` writes `v`. */
  datatype ApplicationPatch = ApplicationPatch(status: Option<string>, rejectionReason: Option<Option<string>>)

  /** The stored row holds the insert's thirteen content columns as
      given. */
  predicate HoldsInsertedContent(r: Application, ins: ApplicationInsert) {
    && r.fullName == ins.fullName && r.studentId == ins.studentId
    && r.dateOfBirth == ins.dateOfBirth && r.gender == ins.gender
    && r.emailAddress == ins.emailAddress && r.phoneNumber == ins.phoneNumber
    && r.address == ins.address && r.gradeYearLevel == ins.gradeYearLevel
    && r.sectionProgram == ins.sectionProgram && r.educationLevel == ins.educationLevel
    && r.parentGuardianName == ins.parentGuardianName && r.guardianContact == ins.guardianContact
    && r.guardianRelationship == ins.guardianRelationship
  }

  /** The row an insert produces, given its id, its creation time and the
      default of the `status` column. */
  function ApplicationRow(ins: ApplicationInsert, id: Id, now: Timestamp, statusDefault: string): (r: Application)
    ensures r.id == id && r.createdAt == now && r.userId == ins.userId
    ensures r.status == (if ins.status.Some? then ins.status.value else statusDefault)
    ensures r.rejectionReason == ins.rejectionReason
    ensures HoldsInsertedContent(r, ins)
  {
    Application(id, ins.userId, ins.fullName, ins.studentId, ins.dateOfBirth, ins.gender,
                ins.emailAddress, ins.phoneNumber, ins.address, ins.gradeYearLevel,
                ins.sectionProgram, ins.educationLevel, ins.parentGuardianName,
                ins.guardianContact, ins.guardianRelationship,
                if ins.status.Some? then ins.status.value else statusDefault,
                ins.rejectionReason, now)
  }

  /** `a` and `b` hold the same submitted content: every column except the
      decision columns `status` and `rejection_reason`. */
  predicate SameContent(a: Application, b: Application) {
    && a.id == b.id && a.userId == b.userId && a.fullName == b.fullName
    && a.studentId == b.studentId && a.dateOfBirth == b.dateOfBirth && a.gender == b.gender
    && a.emailAddress == b.emailAddress && a.phoneNumber == b.phoneNumber && a.address == b.address
    && a.gradeYearLevel == b.gradeYearLevel && a.sectionProgram == b.sectionProgram
    && a.educationLevel == b.educationLevel && a.parentGuardianName == b.parentGuardianName
    && a.guardianContact == b.guardianContact && a.guardianRelationship == b.guardianRelationship
    && a.createdAt == b.createdAt
  }

  /** The effect of an update patch on one row. */
  function ApplyPatch(a: Application, p: ApplicationPatch): (r: Application)
    ensures SameContent(a, r)
    ensures r.status == (if p.status.Some? then p.status.value else a.status)
    ensures r.rejectionReason == (if p.rejectionReason.Some? then p.rejectionReason.value else a.rejectionReason)
  {
    a.(status := if p.status.Some? then p.status.value else a.status,
       rejectionReason := if p.rejectionReason.Some? then p.rejectionReason.value else a.rejectionReason)
  }

  // ---------------------------------------------------------------------
  // student_records

  /** A `student_records` row. `education_level` is enum-typed; there is no
      `user_id` and no application id. */
  datatype StudentRecord = StudentRecord(
    id: Id,
    fullName: string,
    studentId: string,
    dateOfBirth: Option<string>,
    gender: Option<string>,
    emailAddress: Option<string>,
    phoneNumber: Option<string>,
    address: Option<string>,
    gradeYearLevel: string,
    sectionProgram: Option<string>,
    educationLevel: EducationLevel,
    parentGuardianName: Option<string>,
    guardianContact: Option<string>,
    guardianRelationship: Option<string>,
    currentStatus: string,
    averageGrade: Option<string>,
    subjectsCourses: Option<string>,
    createdAt: Timestamp)

  /** The `student_records` Insert shape, also used as the full-row Update
      payload. `educationLevel` is the text sent on the wire: the approval
      path passes the application's free-text level, which the backend
      checks against the enum. `currentStatus` may be omitted (`None`). */
  datatype RecordInsert = RecordInsert(
    fullName: string,
    studentId: string,
    dateOfBirth: Option<string>,
    gender: Option<string>,
    emailAddress: Option<string>,
    phoneNumber: Option<string>,
    address: Option<string>,
    gradeYearLevel: string,
    sectionProgram: Option<string>,
    educationLevel: string,
    parentGuardianName: Option<string>,
    guardianContact: Option<string>,
    guardianRelationship: Option<string>,
    currentStatus: Option<string>,
    averageGrade: Option<string>,
    subjectsCourses: Option<string>)

  /** The backend accepts a record payload only when its level is an enum value. */
  predicate AcceptableRecord(ins: RecordInsert) {
    ParseEducationLevel(ins.educationLevel).Some?
  }

  /** The row an accepted insert produces. */
  function RecordRow(ins: RecordInsert, id: Id, now: Timestamp, currentStatusDefault: string): (r: StudentRecord)
    requires AcceptableRecord(ins)
    ensures r.id == id && r.createdAt == now
    ensures EducationLevelName(r.educationLevel) == ins.educationLevel
  {
    StudentRecord(id, ins.fullName, ins.studentId, ins.dateOfBirth, ins.gender, ins.emailAddress,
                  ins.phoneNumber, ins.address, ins.gradeYearLevel, ins.sectionProgram,
                  ParseEducationLevel(ins.educationLevel).value, ins.parentGuardianName,
                  ins.guardianContact, ins.guardianRelationship,
                  if ins.currentStatus.Some? then ins.currentStatus.value else currentStatusDefault,
                  ins.averageGrade, ins.subjectsCourses, now)
  }

  /** The effect of an accepted full-row update: every payload column is
      written, the id and creation time stay. */
  function UpdatedRecord(r: StudentRecord, ins: RecordInsert): (u: StudentRecord)
    requires AcceptableRecord(ins)
    ensures u.id == r.id && u.createdAt == r.createdAt
    ensures EducationLevelName(u.educationLevel) == ins.educationLevel
    ensures u.currentStatus == (if ins.currentStatus.Some? then ins.currentStatus.value else r.currentStatus)
  {
    RecordRow(ins, r.id, r.createdAt, r.currentStatus)
  }
}
