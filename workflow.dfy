/** The application review workflow across the student page and the admin
    page: which transitions the screens offer, the invariant they keep on
    an application's decision columns, and client scenarios that drive
    both pages against one store. */
module Workflow {
  import opened Types
  import opened Listing
  import opened Backend
  import SA = StudentApplication
  import SR = StudentApplications

  datatype Action = Approve | Reject(reason: string) | Resubmit

  /** Whether the pages let `act` through for `a`, the application as the
      page last read it: the admin dialog's pending-only guard (plus the
      reject handler's blank-reason guard), and the status view's
      rejected-only guard. */
  predicate Offered(a: Application, act: Action) {
    match act
    case Approve => SR.DecisionOffered(a)
    case Reject(reason) => SR.DecisionOffered(a) && SR.Trim(reason) != ""
    case Resubmit => SA.ResubmitOffered(a)
  }

  /** The patch each action writes. */
  function PatchOf(act: Action): ApplicationPatch {
    match act
    case Approve => SR.ApprovePatch
    case Reject(reason) => SR.RejectPatch(reason)
    case Resubmit => SA.ResubmitPatch
  }

  /** The state diagram: submit enters pending; pending goes to approved or
      rejected; rejected goes back to pending. */
  predicate Edge(from: Status, to: Status) {
    || (from == Pending && to == Approved)
    || (from == Pending && to == Rejected)
    || (from == Rejected && to == Pending)
  }

  /** Every transition the screens offer, applied to the row as the page
      last read it, is an edge of the diagram. The handlers patch the
      stored row, which may have moved on since
      (`StaleListApprovesRejectedApplication`). */
  lemma OfferedTransitionsAreEdges(a: Application, act: Action)
    requires Offered(a, act)
    ensures ParseStatus(a.status).Some?
    ensures ParseStatus(ApplyPatch(a, PatchOf(act)).status).Some?
    ensures Edge(ParseStatus(a.status).value, ParseStatus(ApplyPatch(a, PatchOf(act)).status).value)
  {
  }

  /** Every edge of the diagram is offered by some screen. */
  lemma EdgesAreOffered(a: Application, to: Status)
    requires ParseStatus(a.status).Some? && Edge(ParseStatus(a.status).value, to)
    ensures exists act :: Offered(a, act) && ApplyPatch(a, PatchOf(act)).status == StatusName(to)
  {
    var from := ParseStatus(a.status).value;
    var act := if from == Rejected then Resubmit else if to == Approved then Approve else Reject("x");
    assert SR.Trim("x") != "" by {
      assert !SR.IsWhitespace("x"[0]);
      SR.TrimEmptyIffBlank("x");
    }
    assert Offered(a, act) && ApplyPatch(a, PatchOf(act)).status == StatusName(to);
  }

  /** An approved application, and one in any status outside the
      convention, is offered nothing. */
  lemma OnlyPendingAndRejectedOfferActions(a: Application, act: Action)
    requires a.status != StatusName(Pending) && a.status != StatusName(Rejected)
    ensures !Offered(a, act)
  {
  }

  /** The decision columns agree: a known status, and a reason exactly
      when rejected. */
  predicate DecisionConsistent(a: Application) {
    ParseStatus(a.status).Some? && (a.rejectionReason.Some? <==> a.status == StatusName(Rejected))
  }

  /** A freshly submitted application is consistent. */
  lemma SubmittedIsConsistent(userId: string, f: SA.Form, id: Id, now: Timestamp, statusDefault: string)
    ensures DecisionConsistent(ApplicationRow(SA.ApplicationData(userId, f), id, now, statusDefault))
  {
  }

  /** Offered transitions, applied to the row as the page last read it,
      keep the decision columns consistent and leave the submitted content
      alone. */
  lemma OfferedActionsKeepConsistency(a: Application, act: Action)
    requires DecisionConsistent(a) && Offered(a, act)
    ensures DecisionConsistent(ApplyPatch(a, PatchOf(act)))
    ensures SameContent(a, ApplyPatch(a, PatchOf(act)))
  {
  }

  /** After a reject that passed the blank-reason guard, the student's
      status view shows the reason, exactly as the admin typed it. */
  lemma RejectionReasonIsShown(a: Application, reason: string)
    requires SR.Trim(reason) != ""
    ensures SA.ReasonShown(ApplyPatch(a, SR.RejectPatch(reason)))
    ensures ApplyPatch(a, SR.RejectPatch(reason)).rejectionReason == Some(reason)
  {
    SR.TrimEmptyIffBlank(reason);
  }

  /** A reject / resubmit cycle leaves the application's content as it was,
      so a later approval copies the same fields. */
  lemma RejectResubmitCycleKeepsContent(a: Application, reason: string)
    ensures var b := ApplyPatch(ApplyPatch(a, SR.RejectPatch(reason)), SA.ResubmitPatch);
      && SameContent(a, b) && b.status == StatusName(Pending) && b.rejectionReason == None
      && SR.RecordFromApplication(b) == SR.RecordFromApplication(a)
  {
    var b := ApplyPatch(ApplyPatch(a, SR.RejectPatch(reason)), SA.ResubmitPatch);
    SR.RecordIgnoresIdentityAndDecision(a, b);
  }

  // ---------------------------------------------------------------------
  // Client scenarios

  /** A user without an application submits once; on reopening the page the
      status view replaces the form, so a second submission is not offered. */
  method SecondSubmissionNotOffered(store: Store, user: SA.User, f: SA.Form, now: Timestamp,
                                    profile: Option<SA.Profile>)
    returns (again: SA.ApplicationPage)
    requires store.Valid() && store.UserApplicationIds(user.id) == {}
    modifies store
    ensures again.ShowsStatusView() && !again.SubmitOffered()
    ensures again.existing.value.status == StatusName(Pending)
  {
    var page := new SA.ApplicationPage(store, Some(user));
    page.form := f;
    var ok := page.Submit(now, false);
    again := new SA.ApplicationPage(store, Some(user));
    again.CheckExisting(profile, false);
  }

  /** When the status update of an approval fails, the dialog keeps
      offering Approve; taking it again inserts a second record derived
      from the same application. Approval is not exactly-once. */
  method RetriedApprovalCreatesTwoRecords(page: SR.ReviewPage, now: Timestamp)
    requires page.Valid() && page.ActionsOffered()
    requires AcceptableRecord(SR.RecordFromApplication(page.selected.value))
    modifies page, page.store
    ensures page.selected == old(page.selected)
    ensures old(page.store.nextId) in page.store.records && old(page.store.nextId) + 1 in page.store.records
    ensures page.store.records.Keys == old(page.store.records.Keys) + {old(page.store.nextId), old(page.store.nextId) + 1}
    ensures |page.store.records| == |old(page.store.records)| + 2
    ensures var a := old(page.selected.value);
      && SR.DerivedFrom(page.store.records[old(page.store.nextId)], a)
      && SR.DerivedFrom(page.store.records[old(page.store.nextId) + 1], a)
  {
    var a := page.selected.value;
    var first := page.Approve(a, now, false, true, false);
    assert first.StatusUpdateFailed? && page.ActionsOffered();
    var mid := page.store.records;
    var second := page.Approve(a, now, false, false, false);
    assert old(page.store.nextId) + 1 !in mid;
  }

  /** The approve/reject guard tests the dialog's copy of the row, not the
      stored one. A reject whose list refresh fails leaves the pending copy
      in the list; reopening it offers Approve again, and approving moves
      the stored rejected application to approved while it keeps its
      rejection reason, off the state diagram. */
  method StaleListApprovesRejectedApplication(store: Store)
    requires JaneApplied(store, "pending", None)
    modifies store
    ensures store.applications.Keys == {0}
    ensures store.applications[0].status == StatusName(Approved)
    ensures store.applications[0].rejectionReason == Some(Reason)
    ensures !DecisionConsistent(store.applications[0])
    ensures store.records.Keys == {1}
  {
    var admin := new SR.ReviewPage(store);
    admin.FetchApplications(false);
    var app := store.applications[0];
    assert multiset(admin.applications)[app] == 1;
    admin.OpenViewDialog(app);
    admin.EditReason(Reason);
    assert SR.Trim(Reason) != "" by {
      assert !SR.IsWhitespace(Reason[0]);
      SR.TrimEmptyIffBlank(Reason);
    }
    var rejected := admin.Reject(app.id, false, true);
    assert store.applications[0].status == StatusName(Rejected);
    // the list still holds the pending copy
    admin.OpenViewDialog(app);
    assert admin.ActionsOffered();
    var outcome := admin.Approve(app, 3, false, false, false);
    assert outcome.ApprovedAndCreated?;
  }

  /** If the reload after a successful resubmit returns nothing, the form
      replaces the status view; a submission from it gives the user a second
      application, after which the lookup on every later visit finds no
      single row and the status view never comes back. */
  method LostStatusViewAfterFailedReload(page: SA.ApplicationPage, now: Timestamp, profile: Option<SA.Profile>)
    returns (later: SA.ApplicationPage)
    requires page.Valid() && page.user.Some? && page.existing.Some?
    requires page.store.UserApplicationIds(page.user.value.id) == {page.existing.value.id}
    modifies page, page.store
    ensures |page.store.UserApplicationIds(page.user.value.id)| == 2
    ensures !later.ShowsStatusView()
  {
    var uid := page.user.value.id;
    var oldId := page.existing.value.id;
    var ok := page.Resubmit(false, true);
    assert !page.ShowsStatusView();
    var before := page.store.UserApplicationIds(uid);
    assert before == {oldId};
    var submitted := page.Submit(now, false);
    assert old(page.store.nextId) !in before;
    later := new SA.ApplicationPage(page.store, page.user);
    later.CheckExisting(profile, false);
  }

  /** The end-to-end scenario's applicant and form. */
  const Jane := SA.User("u1", Some("jane@example.com"))
  const JaneForm := SA.Form("Jane Doe", "2024-00123", "", "", "jane@example.com", "", "",
                            "Grade 11", "", "senior_high", "", "", "")
  const Reason := "Incomplete guardian info"

  /** The store holds Jane's application alone, with the given decision
      columns, and no record yet. */
  ghost predicate JaneApplied(store: Store, status: string, reason: Option<string>)
    reads store
  {
    && store.Valid() && store.applications.Keys == {0} && store.records == map[] && store.nextId == 1
    && var a := store.applications[0];
       && a.userId == Jane.id && a.fullName == "Jane Doe" && a.educationLevel == "senior_high"
       && a.status == status && a.rejectionReason == reason
  }

  /** Jane submits her form on an empty store. */
  method JaneSubmits() returns (store: Store)
    ensures fresh(store) && JaneApplied(store, "pending", None)
  {
    store := new Store("pending", "Active");
    var student := new SA.ApplicationPage(store, Some(Jane));
    student.form := JaneForm;
    assert student.SubmitOffered();
    var submitted := student.Submit(1, false);
  }

  /** The admin opens the pending application and rejects it with a reason. */
  method AdminRejects(store: Store)
    requires JaneApplied(store, "pending", None)
    modifies store
    ensures JaneApplied(store, "rejected", Some(Reason))
  {
    var admin := new SR.ReviewPage(store);
    admin.FetchApplications(false);
    var app := store.applications[0];
    assert multiset(admin.applications)[app] == 1;
    admin.OpenViewDialog(app);
    assert admin.ActionsOffered();
    admin.EditReason(Reason);
    assert SR.Trim(Reason) != "" by {
      assert !SR.IsWhitespace(Reason[0]);
      SR.TrimEmptyIffBlank(Reason);
    }
    var rejected := admin.Reject(app.id, false, false);
  }

  /** Jane reopens her page, sees the rejection with its reason, and
      resubmits. */
  method JaneResubmits(store: Store)
    requires JaneApplied(store, "rejected", Some(Reason))
    modifies store
    ensures JaneApplied(store, "pending", None)
  {
    var back := new SA.ApplicationPage(store, Some(Jane));
    assert store.UserApplicationIds(Jane.id) == {0};
    back.CheckExisting(None, false);
    assert SA.ResubmitOffered(back.existing.value) && SA.ReasonShown(back.existing.value);
    var resubmitted := back.Resubmit(false, false);
  }

  /** The admin approves the pending application: Jane now has an active
      record. */
  method AdminApproves(store: Store)
    requires JaneApplied(store, "pending", None)
    modifies store
    ensures store.applications.Keys == {0} && store.applications[0].status == "approved"
    ensures store.records.Keys == {1}
    ensures store.records[1].fullName == "Jane Doe" && store.records[1].currentStatus == "Active"
    ensures store.records[1].educationLevel == SeniorHigh
  {
    var admin := new SR.ReviewPage(store);
    admin.FetchApplications(false);
    var app := store.applications[0];
    assert multiset(admin.applications)[app] == 1;
    admin.OpenViewDialog(app);
    assert admin.ActionsOffered();
    var outcome := admin.Approve(app, 3, false, false, false);
    assert outcome.ApprovedAndCreated?;
  }

  /** Submit, reject with a reason, resubmit, approve. */
  method EndToEnd() returns (store: Store)
    ensures store.applications.Keys == {0} && store.applications[0].status == "approved"
    ensures store.records.Keys == {1}
    ensures store.records[1].fullName == "Jane Doe" && store.records[1].currentStatus == "Active"
    ensures store.records[1].educationLevel == SeniorHigh
  {
    store := JaneSubmits();
    AdminRejects(store);
    JaneResubmits(store);
    AdminApproves(store);
  }
}
