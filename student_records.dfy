/** The admin records page (src/pages/StudentRecords.tsx): the record list
    split into four education-level tabs, and the add / edit / delete
    handlers. Date parsing and formatting are left out: a date of birth is
    carried as its `yyyy-MM-dd` text. */
module StudentRecords {
  import opened Types
  import opened Listing
  import opened Backend

  /** The form state: fifteen text inputs, the optional date and the
      enum-typed level select. */
  datatype Form = Form(
    studentId: string,
    fullName: string,
    gender: string,
    dateOfBirth: Option<string>,
    gradeYearLevel: string,
    sectionProgram: string,
    address: string,
    phoneNumber: string,
    emailAddress: string,
    parentGuardianName: string,
    guardianContact: string,
    guardianRelationship: string,
    currentStatus: string,
    averageGrade: string,
    subjectsCourses: string,
    educationLevel: EducationLevel)

  /** The state `resetForm` restores (and the initial state). */
  const BlankForm := Form("", "", "", None, "", "", "", "", "", "", "", "", "Active", "", "", HighSchool)

  /** The tab values, in display order. */
  const TabLevels: seq<string> := ["grade_school", "high_school", "senior_high", "college"]

  /** The `studentData` payload of `handleSubmit`: all sixteen columns,
      text inputs written as typed (an empty input is written as ""), an
      unset date as null. */
  function StudentData(f: Form): (r: RecordInsert)
    ensures AcceptableRecord(r)
    ensures r.dateOfBirth.None? <==> f.dateOfBirth.None?
    ensures r.currentStatus == Some(f.currentStatus)
  {
    RecordInsert(
      f.fullName, f.studentId, f.dateOfBirth, Some(f.gender), Some(f.emailAddress), Some(f.phoneNumber),
      Some(f.address), f.gradeYearLevel, Some(f.sectionProgram), EducationLevelName(f.educationLevel),
      Some(f.parentGuardianName), Some(f.guardianContact), Some(f.guardianRelationship),
      Some(f.currentStatus), Some(f.averageGrade), Some(f.subjectsCourses))
  }

  /** The form `startEdit` loads from a row: nullable text as "", and a
      date only when the column holds a non-empty text. */
  function FormFromRecord(r: StudentRecord): Form {
    Form(r.studentId, r.fullName, OrEmpty(r.gender),
         if r.dateOfBirth.Some? && r.dateOfBirth.value != "" then r.dateOfBirth else None,
         r.gradeYearLevel, OrEmpty(r.sectionProgram), OrEmpty(r.address), OrEmpty(r.phoneNumber),
         OrEmpty(r.emailAddress), OrEmpty(r.parentGuardianName), OrEmpty(r.guardianContact),
         OrEmpty(r.guardianRelationship), r.currentStatus, OrEmpty(r.averageGrade),
         OrEmpty(r.subjectsCourses), r.educationLevel)
  }

  /** The row with every nullable text column read as "" where it was null. */
  function NullsAsEmpty(r: StudentRecord): StudentRecord {
    r.(gender := Some(OrEmpty(r.gender)),
       dateOfBirth := if r.dateOfBirth.Some? && r.dateOfBirth.value != "" then r.dateOfBirth else None,
       sectionProgram := Some(OrEmpty(r.sectionProgram)), address := Some(OrEmpty(r.address)),
       phoneNumber := Some(OrEmpty(r.phoneNumber)), emailAddress := Some(OrEmpty(r.emailAddress)),
       parentGuardianName := Some(OrEmpty(r.parentGuardianName)),
       guardianContact := Some(OrEmpty(r.guardianContact)),
       guardianRelationship := Some(OrEmpty(r.guardianRelationship)),
       averageGrade := Some(OrEmpty(r.averageGrade)), subjectsCourses := Some(OrEmpty(r.subjectsCourses)))
  }

  /** Saving a form over a row and editing that row again shows the same
      form (a picked date always formats to a non-empty text). */
  lemma EditAfterSaveRoundTrip(row: StudentRecord, f: Form)
    requires f.dateOfBirth != Some("")
    ensures FormFromRecord(UpdatedRecord(row, StudentData(f))) == f
  {
    EducationLevelRoundTrip(f.educationLevel);
  }

  /** Opening a row for edit and saving it unchanged turns its nulls into
      empty strings and changes nothing else; doing so again is a no-op. */
  lemma UnchangedEditNormalizesNulls(row: StudentRecord)
    ensures UpdatedRecord(row, StudentData(FormFromRecord(row))) == NullsAsEmpty(row)
    ensures NullsAsEmpty(NullsAsEmpty(row)) == NullsAsEmpty(row)
  {
    EducationLevelRoundTrip(row.educationLevel);
  }

  /** `filterStudentsByLevel`: the records whose level text equals `level`. */
  function FilterByLevel(s: seq<StudentRecord>, level: string): seq<StudentRecord> {
    if s == [] then []
    else (if EducationLevelName(s[0].educationLevel) == level then [s[0]] else []) + FilterByLevel(s[1..], level)
  }

  /** Filtering distributes over concatenation, so it keeps the original
      order. */
  lemma {:induction false} FilterByLevelAppend(s: seq<StudentRecord>, t: seq<StudentRecord>, level: string)
    ensures FilterByLevel(s + t, level) == FilterByLevel(s, level) + FilterByLevel(t, level)
  {
    if s != [] {
      assert (s + t)[1..] == s[1..] + t;
      FilterByLevelAppend(s[1..], t, level);
    } else {
      assert s + t == t;
    }
  }

  /** A record is kept exactly when its level matches, with its multiplicity. */
  lemma {:induction false} FilterByLevelMembers(s: seq<StudentRecord>, level: string)
    ensures forall x :: multiset(FilterByLevel(s, level))[x] ==
                        (if EducationLevelName(x.educationLevel) == level then multiset(s)[x] else 0)
    ensures forall x :: x in FilterByLevel(s, level) <==> x in s && EducationLevelName(x.educationLevel) == level
  {
    if s != [] {
      FilterByLevelMembers(s[1..], level);
      assert s == [s[0]] + s[1..];
    }
  }

  /** The four tabs together hold as many records as the list. */
  lemma {:induction false} TabsCoverList(s: seq<StudentRecord>)
    ensures |FilterByLevel(s, "grade_school")| + |FilterByLevel(s, "high_school")|
          + |FilterByLevel(s, "senior_high")| + |FilterByLevel(s, "college")| == |s|
  {
    if s != [] {
      TabsCoverList(s[1..]);
    }
  }

  /** Every listed record appears in exactly one tab, the one named by its
      level, and the four tabs together hold the whole list. */
  lemma TabsPartition(s: seq<StudentRecord>)
    ensures TabLevels == EducationLevelValues
    ensures forall x, i :: x in s && 0 <= i < |TabLevels| ==>
              (x in FilterByLevel(s, TabLevels[i]) <==> TabLevels[i] == EducationLevelName(x.educationLevel))
    ensures |FilterByLevel(s, TabLevels[0])| + |FilterByLevel(s, TabLevels[1])|
          + |FilterByLevel(s, TabLevels[2])| + |FilterByLevel(s, TabLevels[3])| == |s|
  {
    forall i | 0 <= i < |TabLevels| {
      FilterByLevelMembers(s, TabLevels[i]);
    }
    TabsCoverList(s);
  }

  class RecordsPage {
    const store: Store
    /** The list as last fetched. */
    var students: seq<StudentRecord>
    var editing: Option<StudentRecord>
    var form: Form
    var dialogOpen: bool

    ghost predicate Valid()
      reads this, store
    {
      store.Valid()
    }

    constructor (store: Store)
      requires store.Valid()
      ensures Valid() && this.store == store
      ensures students == [] && editing == None && form == BlankForm && !dialogOpen
    {
      this.store := store;
      students, editing, form, dialogOpen := [], None, BlankForm, false;
    }

    /** `fetchStudents`: replace the list only when the fetch succeeds. */
    method FetchStudents(fails: bool)
      requires Valid()
      modifies this`students
      ensures Valid()
      ensures fails ==> students == old(students)
      ensures !fails ==> IsListingOf(students, store.records, RecordCreatedAt)
    {
      var r := store.SelectRecords(fails);
      if r.Some? {
        students := r.value;
      }
    }

    /** `resetForm`. */
    method ResetForm()
      modifies this`editing, this`form
      ensures editing == None && form == BlankForm
    {
      editing, form := None, BlankForm;
    }

    /** `startEdit`. */
    method StartEdit(student: StudentRecord)
      modifies this`editing, this`form, this`dialogOpen
      ensures editing == Some(student) && form == FormFromRecord(student) && dialogOpen
    {
      editing, form, dialogOpen := Some(student), FormFromRecord(student), true;
    }

    /** The "Add Student" trigger opens the dialog on the current form. */
    method OpenAdd()
      modifies this`dialogOpen
      ensures dialogOpen
    {
      dialogOpen := true;
    }

    /** Closing the dialog (Cancel, or `onOpenChange(false)`) resets the form. */
    method CloseDialog()
      modifies this`editing, this`form, this`dialogOpen
      ensures !dialogOpen && editing == None && form == BlankForm
    {
      dialogOpen := false;
      ResetForm();
    }

    /** `handleSubmit`: insert a new row when not editing, otherwise update
        the edited row; on success reset the form, close the dialog and
        re-fetch; on failure leave the page as it was. */
    method Save(now: Timestamp, fails: bool, fetchFails: bool) returns (ok: bool)
      requires Valid()
      modifies this, store
      ensures Valid()
      ensures ok == !fails
      ensures !ok ==>
        && store.records == old(store.records) && store.nextId == old(store.nextId)
        && form == old(form) && editing == old(editing) && students == old(students) && dialogOpen == old(dialogOpen)
      ensures ok && old(editing).None? ==>
        && old(store.nextId) !in old(store.records) && store.nextId == old(store.nextId) + 1
        && store.records == old(store.records)[old(store.nextId) :=
             RecordRow(StudentData(old(form)), old(store.nextId), now, store.currentStatusDefault)]
      ensures ok && old(editing).Some? ==>
        var id := old(editing).value.id;
        && store.nextId == old(store.nextId)
        && store.records == (if id in old(store.records)
                             then old(store.records)[id := UpdatedRecord(old(store.records)[id], StudentData(old(form)))]
                             else old(store.records))
      ensures ok ==>
        && form == BlankForm && editing == None && !dialogOpen
        && (fetchFails ==> students == old(students))
        && (!fetchFails ==> IsListingOf(students, store.records, RecordCreatedAt))
      ensures store.applications == old(store.applications)
    {
      var payload := StudentData(form);
      if editing.Some? {
        ok := store.UpdateRecord(editing.value.id, payload, fails);
      } else {
        ok := store.InsertRecord(payload, now, fails);
      }
      if ok {
        ResetForm();
        dialogOpen := false;
        FetchStudents(fetchFails);
      }
    }

    /** `deleteStudent`: remove exactly the row with this id; re-fetch on
        success. */
    method Delete(id: Id, fails: bool, fetchFails: bool) returns (ok: bool)
      requires Valid()
      modifies this`students, store
      ensures Valid()
      ensures ok == !fails
      ensures store.records == if ok then old(store.records) - {id} else old(store.records)
      ensures !ok || fetchFails ==> students == old(students)
      ensures ok && !fetchFails ==> IsListingOf(students, store.records, RecordCreatedAt)
      ensures store.applications == old(store.applications) && store.nextId == old(store.nextId)
    {
      ok := store.DeleteRecord(id, fails);
      if ok {
        FetchStudents(fetchFails);
      }
    }
  }
}
