# Student application review workflow (Bosco Care Connect)

This project models the student-admission workflow of the Bosco Care Connect
school portal.

- A signed-in student fills in an application form. The student page submits it as a
  `pending` row of the `student_applications` table.
- On later visits, the student page shows a status view instead of the form.
- An administrator lists all applications, newest first, and opens one in a dialog.
  A pending application can be **approved** or **rejected**:
  - Approving copies the application's personal, academic and guardian fields into a new
    `student_records` row with status "Active", and then marks the application `approved`.
  - Rejecting requires a non-blank reason. It stores that reason with status `rejected`.
- A rejected student sees the reason and can **resubmit**. This puts the application back to
  `pending` and clears the reason.
- A second admin page manages student records: add, edit and delete. It shows the records in
  four tabs, one per education level.

Modules follow the program's structure:

| file | module | models |
|---|---|---|
| `types.dfy` | `Types` | the generated table shapes and enums of `src/integrations/supabase/types.ts`, plus the status convention |
| `listing.dfy` | `Listing` | what `order("created_at", { ascending: false })` returns: every row exactly once, newest first |
| `backend.dfy` | `Backend` | the hosted database as a `Store` class holding the two tables and an id counter |
| `student_application.dfy` | `StudentApplication` | the student page `src/pages/StudentApplication.tsx` |
| `student_applications.dfy` | `StudentApplications` | the admin review page `src/pages/StudentApplications.tsx` |
| `student_records.dfy` | `StudentRecords` | the admin records page `src/pages/StudentRecords.tsx` |
| `workflow.dfy` | `Workflow` | the state diagram across both application pages, and client scenarios |

How the model treats the backend and the page state:

- **Failures are inputs.** Every backend call can fail for reasons the source cannot see:
  connectivity, row-level security, or constraints. So each call takes a `fails` flag, and a
  failed call changes nothing.
  - The one failure the source's own schema determines is modelled as a condition: a record
    whose `education_level` text is not one of the four enum values is refused.
  - An update or delete whose id matches no row is not an error.
  - `maybeSingle()` yields a row only when exactly one row matches. No match, several matches
    and an error all come back to the page as "no data", because the page never inspects the
    error.
- **Ids come from a counter.** Ids are natural numbers from a store counter that never reuses
  a value; the source uses UUID strings.
- **The clock is an input.** Creation times are passed in as parameters.
- **React state becomes fields.** Each page's state is a field of its class, and each handler
  is a method that changes those fields and the store.
- **Status is free text.** The application's `status` column is an unconstrained `string`, as
  the generated type declares. `Types.Status` is the three-value convention the pages compare
  against.

Observations about the code that the model makes precise:

- Approval is not exactly-once. The record is inserted before the status update; if the
  update fails, the dialog still offers Approve, and a retry inserts a second record
  (`Workflow.RetriedApprovalCreatesTwoRecords`).
- The approve/reject guard tests the page's copy of the application, not the stored row. When
  the list refresh after a reject fails, the list keeps the pending copy; reopening it offers
  Approve, and approving turns the stored rejected application into an approved one that
  still carries its rejection reason, and creates a record
  (`Workflow.StaleListApprovesRejectedApplication`).
- Resubmission does not check the status of the application it resets. Only the status view's
  rejected-only button guards it.
- After a successful resubmit, the page reloads the application. If that reload returns no
  data, the page clears its loaded application and shows the form again. A submission from
  there gives the student a second application. After that, the lookup on every later visit
  matches two rows and finds nothing (`Workflow.LostStatusViewAfterFailedReload`).
- Two restrictions that follow from the code:
  - The form offers `elementary` and `junior_high`, but these are not record levels, so such
    an application can never be approved (`StudentApplications.FormLevelsNotAllApprovable`).
  - The generated application types have no `rejection_reason` column, yet the pages read and
    write one. The model gives the application that column.

## Model

| member | source | states |
|---|---|---|
| Types.ParseEducationLevel | src/integrations/supabase/types.ts:302-306 | a text is an `education_level` exactly when it is one of the enum's four names, and then it names the parsed level |
| Types.ParseAppRole | src/integrations/supabase/types.ts:301 | a text is an `app_role` exactly when it is "admin" or "student", and then it names the parsed role |
| Types.EducationLevelConstantsMatchEnum | src/integrations/supabase/types.ts:431-443 | the exported `education_level` constant lists the four enum values once each, in declaration order, and a text is in it exactly when it names a level |
| Types.AppRoleConstantsMatchEnum | src/integrations/supabase/types.ts:434 | the exported `app_role` constant lists the two roles once each, and a text is in it exactly when it names a role |
| Types.EducationLevelRoundTrip | src/integrations/supabase/types.ts:302-306 | parsing a level's name gives back the level |
| Types.AppRoleRoundTrip | src/integrations/supabase/types.ts:301 | parsing a role's name gives back the role |
| Types.ParseStatus | src/pages/StudentApplications.tsx:306 | a text is read as a status only when it is that status's name, and a text no status is named by is read as none |
| Types.StatusRoundTrip | src/pages/StudentApplications.tsx:306 | parsing a status name gives back the status, so the three names are distinct |
| Types.ApplicationRow | src/integrations/supabase/types.ts:138-177 | the stored row has the given id and creation time, the insert's owner, reason and thirteen content columns as given; its status is the insert's, or the column default when omitted |
| Types.ApplyPatch | src/integrations/supabase/types.ts:178-197 | an update changes status and reason only where the patch sets them, and every other column stays as it was |
| Types.RecordRow | src/integrations/supabase/types.ts:201-242 | the stored record has the given id and creation time, and the enum level the payload's text names |
| Types.UpdatedRecord | src/integrations/supabase/types.ts:243-263 | a full-payload record update keeps the row's id and creation time, takes the payload's level, and keeps the old status only when the payload omits it |
| Listing.SortDescCorrect | src/pages/StudentApplications.tsx:30-33 | the ordered list is a permutation of its input and is sorted by creation time, newest first |
| Listing.RowsExactlyOnce | src/pages/StudentRecords.tsx:59-62 | collecting the rows of the table yields each stored row exactly once and nothing else |
| Listing.OrderedListingIsListing | src/pages/StudentApplications.tsx:30-33 | the ordered select returns every row of the table exactly once, and only rows of it, newest first |
| Backend.Store.SelectApplications | src/pages/StudentApplications.tsx:30-33 | no data exactly on failure; otherwise a newest-first listing of all applications |
| Backend.Store.SelectApplicationByUser | src/pages/StudentApplication.tsx:40-44 | a row exactly when the call succeeds and exactly one row belongs to the user, and then it is that row |
| Backend.Store.SelectApplicationById | src/pages/StudentApplication.tsx:140-144 | a row exactly when the call succeeds and the id exists, and then it is that row |
| Backend.Store.SelectRecords | src/pages/StudentRecords.tsx:59-62 | no data exactly on failure; otherwise a newest-first listing of all records |
| Backend.Store.InsertApplication | src/pages/StudentApplication.tsx:91-93 | on success exactly one new row under a fresh id, built from the insert, whose id joins its owner's ids while no other user's ids change; on failure nothing changes |
| Backend.Store.UpdateApplication | src/pages/StudentApplications.tsx:76-79 | on success only the row with that id is patched (none if absent); no row changes owner; records untouched |
| Backend.Store.InsertRecord | src/pages/StudentApplications.tsx:46-63 | succeeds exactly when the call does not fail and the level is an enum value; then exactly one new record |
| Backend.Store.UpdateRecord | src/pages/StudentRecords.tsx:94-97 | on success only the record with that id is replaced by the payload; a bad level is refused |
| Backend.Store.DeleteRecord | src/pages/StudentRecords.tsx:120 | on success exactly the record with that id is gone and nothing else changes |
| StudentApplication.ApplicationData | src/pages/StudentApplication.tsx:72-89 | the submitted payload belongs to the user, is pending with no reason, and stores no empty optional text |
| StudentApplication.ApplicationDataRoundTrip | src/pages/StudentApplication.tsx:72-89 | reading the payload back (null as empty) gives the typed form: submission loses nothing |
| StudentApplication.ApplicationDataInjective | src/pages/StudentApplication.tsx:72-89 | different forms give different payloads |
| StudentApplication.ApplicationPage.CheckExisting | src/pages/StudentApplication.tsx:36-64 | loads the user's application when exactly one exists; otherwise pre-fills name and email from the profile, falling back to the account email |
| StudentApplication.ApplicationPage.Submit | src/pages/StudentApplication.tsx:66-110 | with a user and no failure, exactly one new pending application without reason is stored; otherwise nothing changes |
| StudentApplication.ApplicationPage.Resubmit | src/pages/StudentApplication.tsx:112-149 | the loaded application goes back to pending with no reason, its content unchanged; the reload replaces or clears the loaded application |
| StudentApplications.TrimEmptyIffBlank | src/pages/StudentApplications.tsx:98 | `trim()` yields the empty string exactly for strings of whitespace only |
| StudentApplications.ApprovalAcceptedIffEnumLevel | src/pages/StudentApplications.tsx:58 | the derived record is accepted exactly when the application's level text is one of the four enum values |
| StudentApplications.FormLevelsNotAllApprovable | src/pages/StudentApplication.tsx:360-363 | of the form's four levels, exactly senior_high and college can be approved |
| StudentApplications.ApprovalDerivesRecord | src/pages/StudentApplications.tsx:48-63 | the stored record copies the thirteen application fields, is "Active", and has no grade or subjects |
| StudentApplications.RecordIgnoresIdentityAndDecision | src/pages/StudentApplications.tsx:48-63 | the derived record does not depend on the application's id, owner, time or decision state |
| StudentApplications.ReviewPage.FetchApplications | src/pages/StudentApplications.tsx:27-42 | on success the list is the newest-first listing of all applications; on error the old list stays |
| StudentApplications.ReviewPage.OpenViewDialog | src/pages/StudentApplications.tsx:133-137 | selects the application, clears the reason input, opens the dialog |
| StudentApplications.ReviewPage.EditReason | src/pages/StudentApplications.tsx:314 | the reason input holds the typed text |
| StudentApplications.ReviewPage.CloseDialog | src/pages/StudentApplications.tsx:224 | the dialog is closed |
| StudentApplications.ReviewPage.Approve | src/pages/StudentApplications.tsx:44-95 | a refused insert changes nothing; otherwise exactly one derived record is added, then the status becomes approved unless that update fails, with no rollback |
| StudentApplications.ReviewPage.Reject | src/pages/StudentApplications.tsx:97-131 | a blank reason writes nothing; otherwise status rejected and the reason as typed, then the input is cleared and the dialog closed |
| StudentRecords.StudentData | src/pages/StudentRecords.tsx:73-90 | the payload always has an enum level, a date exactly when one is picked, and the typed status |
| StudentRecords.EditAfterSaveRoundTrip | src/pages/StudentRecords.tsx:137-156 | editing a row just saved from a form shows that same form again |
| StudentRecords.UnchangedEditNormalizesNulls | src/pages/StudentRecords.tsx:137-156 | saving an unchanged edit turns null texts into empty strings and an empty date text into null, and changes nothing else; doing so twice is the same as once |
| StudentRecords.FilterByLevelAppend | src/pages/StudentRecords.tsx:178-180 | the level filter distributes over concatenation, so it keeps list order |
| StudentRecords.FilterByLevelMembers | src/pages/StudentRecords.tsx:178-180 | a record is kept, with its multiplicity, exactly when its level matches |
| StudentRecords.TabsCoverList | src/pages/StudentRecords.tsx:470-488 | the four tabs together hold as many records as the list |
| StudentRecords.TabsPartition | src/pages/StudentRecords.tsx:470-488 | the tabs are the four enum levels; each listed record is in exactly the tab of its level; the tab sizes sum to the list size |
| StudentRecords.RecordsPage.FetchStudents | src/pages/StudentRecords.tsx:57-68 | on success the list is the newest-first listing of all records; otherwise it stays |
| StudentRecords.RecordsPage.ResetForm | src/pages/StudentRecords.tsx:158-176 | leaves edit mode and restores the blank form ("Active", high_school) |
| StudentRecords.RecordsPage.StartEdit | src/pages/StudentRecords.tsx:137-156 | enters edit mode for the row, loads its fields into the form, opens the dialog |
| StudentRecords.RecordsPage.OpenAdd | src/pages/StudentRecords.tsx:253-258 | the dialog opens on the current form |
| StudentRecords.RecordsPage.CloseDialog | src/pages/StudentRecords.tsx:249-251 | closing the dialog also resets the form |
| StudentRecords.RecordsPage.Save | src/pages/StudentRecords.tsx:70-117 | inserts when not editing and updates the edited id otherwise; on success resets, closes, re-fetches; on failure nothing changes |
| StudentRecords.RecordsPage.Delete | src/pages/StudentRecords.tsx:119-135 | on success exactly that record is removed and the list re-fetched; applications are untouched |
| Workflow.OfferedTransitionsAreEdges | src/pages/StudentApplications.tsx:306 | every action a screen lets through, applied to the row as the page last read it, moves a known status along an edge of pending→approved, pending→rejected, rejected→pending |
| Workflow.EdgesAreOffered | src/pages/StudentApplication.tsx:219 | every edge of that diagram is offered by some screen |
| Workflow.OnlyPendingAndRejectedOfferActions | src/pages/StudentApplications.tsx:306 | an approved application, or one with an unknown status, is offered no action |
| Workflow.SubmittedIsConsistent | src/pages/StudentApplication.tsx:87-88 | a fresh submission is pending and has no reason |
| Workflow.OfferedActionsKeepConsistency | src/pages/StudentApplications.tsx:109-112 | offered actions, applied to the row as the page last read it, keep "a reason exactly when rejected" and leave the submitted content unchanged |
| Workflow.RejectionReasonIsShown | src/pages/StudentApplication.tsx:202 | after a reject that passes the blank-reason guard, the status view shows the reason exactly as typed |
| Workflow.RejectResubmitCycleKeepsContent | src/pages/StudentApplication.tsx:118-124 | reject then resubmit gives back a pending application with no reason, the same content, and the same derived record |
| Workflow.SecondSubmissionNotOffered | src/pages/StudentApplication.tsx:151 | after one submission, the reopened page shows the status view and offers no form |
| Workflow.RetriedApprovalCreatesTwoRecords | src/pages/StudentApplications.tsx:75-86 | a failed status update followed by a retried approval leaves two records derived from the same application |
| Workflow.StaleListApprovesRejectedApplication | src/pages/StudentApplications.tsx:35-39 | after a reject whose list refresh fails, reopening the stale copy and approving leaves the stored application approved with its rejection reason, inconsistent, and one record created |
| Workflow.LostStatusViewAfterFailedReload | src/pages/StudentApplication.tsx:140-146 | a resubmit whose reload fails, followed by a submission, leaves the user two applications and a page that never shows the status view |
| Workflow.EndToEnd | src/pages/StudentApplication.tsx:66-149 | submit, reject with a reason, resubmit, approve: the application is approved and an "Active" record for "Jane Doe" at senior_high exists |

## Left out

- Rendering, toasts, loading flags and the `Loading...` placeholder are left out; they affect no stored state.
- Navigation is left out. This includes the return to "/" after a successful submission (the model keeps the page object) and the back buttons.
- Authentication is left out: the signed-in user is a constructor parameter of the student page.
- The non-admin redirect on the records page (src/pages/StudentRecords.tsx:26-29) is left out. It is routing, and it calls hooks after an early return.
- The `profiles` lookup in the mount effect is a parameter: `None` stands for no profile row or a failed lookup.
- Parsing and formatting of the date of birth (`new Date`, `format(…, "yyyy-MM-dd")`) are left out: a date is carried as its text.
- StudentRecords.EditAfterSaveRoundTrip: holds for `date_of_birth` only because the date is carried as text. In the source, `startEdit` parses the stored "yyyy-MM-dd" text as UTC midnight (src/pages/StudentRecords.tsx:142) and `handleSubmit` formats it in local time (line 77); west of UTC the edit form shows the previous day.
- StudentRecords.UnchangedEditNormalizesNulls: "changes nothing else" and idempotence hold for `date_of_birth` only because the date is carried as text. In the source, west of UTC each unchanged save moves the stored date back one day (src/pages/StudentRecords.tsx:77, 142).
- The `updated_at` columns are left out; no handler reads or writes them.
- The database's column defaults for `status` and `current_status` are not part of the source. They are store constants, and no handler omits those columns.
- Concurrency between browser sessions is left out. Each handler runs to completion before the next one starts; in the source, handlers await network calls and can interleave.
- Ties in `created_at` are left out: rows with equal creation times may come in any order, and the model fixes one order (the lower id first).
- Email-format and other browser input validation are left out, except the `required` attributes captured by `StudentApplication.RequiredFilled`.
- The role table, `has_role`, and the guidance, pastoral and sacramental pages are not part of this model.
- `src/App.tsx` routes neither application page; their routing is not part of this model.
