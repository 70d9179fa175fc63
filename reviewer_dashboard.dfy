/** The reviewer's dashboard (src/pages/ReviewerDashboard.tsx): the role
    gate, the load of the reviewer's own rows, the decision handler and the
    view filter. */
module ReviewerDashboard {
  import opened Wrappers
  import opened Seqs
  import opened Records
  import opened Templates
  import opened Store
  import opened EmailService
  import AdminDashboard

  /** The statuses the reviewer's selector offers; "pending" is not one. */
  const ReviewerStatusOptions: seq<Status> := [Assigned, Selected, Rejected]

  /** `statusUpdateDialog`; `newStatus` is None while it holds "". */
  datatype StatusDialog = StatusDialog(isOpen: bool, submission: Option<Submission>, newStatus: Option<Status>)

  const ClosedDialog := StatusDialog(false, None, None)

  /** `remarks || null` */
  function StoredRemarks(remarks: string): (r: Option<string>)
    ensures r.None? <==> remarks == ""
    ensures r.Some? ==> r.value == remarks
  {
    if remarks == "" then None else Some(remarks)
  }

  /** The author's email the reviewer's decision sends. */
  function DecisionMail(sub: Submission, status: Status, remarks: string): EmailData {
    EmailData(sub.email, "Paper Submission Update - " + Interpolate(sub.submissionId),
      StudentStatusTemplate(sub.authorName, sub.paperTitle, StatusName(status), sub.submissionId.GetOr(""), remarks))
  }

  /** The rows `.eq('assigned_to', reviewerId)` returns, in table order. */
  function AssignedTo(table: seq<Submission>, reviewerId: string): (r: seq<Submission>)
    ensures forall i :: 0 <= i < |r| ==> r[i].assignedTo == Some(reviewerId) && r[i] in table
    ensures forall i :: 0 <= i < |table| && table[i].assignedTo == Some(reviewerId) ==> table[i] in r
  {
    Filter(table, (s: Submission) => s.assignedTo == Some(reviewerId))
  }

  /** The role gate: only a stored session with role "reviewer" stays. */
  predicate MayEnter(user: Option<Session>) {
    user.Some? && user.value.role == "reviewer"
  }

  class Dashboard {
    const db: Backend
    var currentUser: Option<Session>
    var assignedSubmissions: seq<Submission>
    var dialog: StatusDialog

    /** An open decision has a status from the selector. */
    predicate Valid()
      reads this
    {
      dialog.submission.Some? ==> dialog.newStatus.Some? && dialog.newStatus.value in ReviewerStatusOptions
    }

    constructor (db: Backend)
      ensures this.db == db && currentUser == None && assignedSubmissions == [] && dialog == ClosedDialog
      ensures Valid()
    {
      this.db := db;
      currentUser := None;
      assignedSubmissions := [];
      dialog := ClosedDialog;
    }

    /** The mount effect: anyone but a reviewer is sent to the login page
        (`redirect`) and nothing is loaded; a reviewer loads exactly the
        rows assigned to them, unless the query fails. */
    method Mount(user: Option<Session>, table: seq<Submission>, queryOk: bool) returns (redirect: bool)
      modifies this
      ensures redirect <==> !MayEnter(user)
      ensures dialog == old(dialog)
      ensures redirect ==> currentUser == old(currentUser) && assignedSubmissions == old(assignedSubmissions)
      ensures !redirect ==> currentUser == user
      ensures !redirect && queryOk ==> assignedSubmissions == AssignedTo(table, user.value.id)
      ensures !redirect && !queryOk ==> assignedSubmissions == old(assignedSubmissions)
    {
      if !MayEnter(user) {
        return true;
      }
      currentUser := user;
      if queryOk {
        assignedSubmissions := AssignedTo(table, user.value.id);
      }
      return false;
    }

    /** `handleStatusChange`, called from the selector. */
    method HandleStatusChange(submission: Submission, newStatus: Status)
      requires newStatus in ReviewerStatusOptions
      modifies this
      ensures dialog == StatusDialog(true, Some(submission), Some(newStatus))
      ensures currentUser == old(currentUser) && assignedSubmissions == old(assignedSubmissions)
      ensures Valid()
    {
      dialog := StatusDialog(true, Some(submission), Some(newStatus));
    }

    /** `confirmStatusUpdate`: nothing without a selected submission; a
        failed write changes nothing; after a successful write only the
        author is mailed, a mail failure is swallowed, and the dialog is
        reset. The status written is never "pending". */
    method ConfirmStatusUpdate(remarks: string, now: string, writeOk: bool, invoke: InvokeOutcome)
      returns (delivery: Delivery)
      requires Valid()
      modifies this, db
      ensures Valid()
      ensures currentUser == old(currentUser) && assignedSubmissions == old(assignedSubmissions)
      ensures db.reviewers == old(db.reviewers)
      ensures old(dialog.submission).None? || !writeOk ==>
        db.submissions == old(db.submissions) && db.invocations == old(db.invocations)
        && dialog == old(dialog) && delivery == NotAttempted
      ensures old(dialog.submission).Some? && writeOk ==>
        var sub, status := old(dialog.submission).value, old(dialog.newStatus).value;
        OtherRowsKept(old(db.submissions), db.submissions, sub.id)
        && (sub.id in old(db.submissions) ==>
              db.submissions[sub.id] == WithDecision(old(db.submissions)[sub.id], status, StoredRemarks(remarks), now)
              && db.submissions[sub.id].status != Pending)
        && db.invocations == old(db.invocations) + Queued(DecisionMail(sub, status, remarks))
        && delivery == Outcome(DecisionMail(sub, status, remarks), invoke)
        && dialog == ClosedDialog
    {
      if dialog.submission.None? || !writeOk {
        return NotAttempted;
      }
      var sub := dialog.submission.value;
      var status := dialog.newStatus.value;
      db.submissions := UpdateWhere(db.submissions, sub.id, s => WithDecision(s, status, StoredRemarks(remarks), now));
      var r := SendEmail(db, DecisionMail(sub, status, remarks), invoke);
      delivery := DeliveryOf(r);
      dialog := ClosedDialog;
    }
  }

  /** The reviewer's views: the three status views, anything else shows all. */
  predicate InView(s: Submission, view: string) {
    if view == "assigned" then s.status == Assigned
    else if view == "selected" then s.status == Selected
    else if view == "rejected" then s.status == Rejected
    else true
  }

  /** The second stage of the reviewer's `getFilteredSubmissions`. */
  function ViewStage(typed: seq<Submission>, view: string): seq<Submission> {
    if view == "assigned" then Filter(typed, (s: Submission) => s.status == Assigned)
    else if view == "selected" then Filter(typed, (s: Submission) => s.status == Selected)
    else if view == "rejected" then Filter(typed, (s: Submission) => s.status == Rejected)
    else typed
  }

  /** `getFilteredSubmissions`: the type filter, then the view. */
  function ViewFilter(rows: seq<Submission>, typeFilter: string, view: string): seq<Submission> {
    ViewStage(AdminDashboard.TypeStage(rows, typeFilter), view)
  }

  /** The reviewer's filter keeps exactly the rows of the chosen type in the
      chosen view, in order; apart from the administrator's "unassigned"
      view, which reviewers do not have, it is the administrator's filter. */
  lemma ViewFilterIsConjunction(rows: seq<Submission>, typeFilter: string, view: string)
    ensures ViewFilter(rows, typeFilter, view)
         == Filter(rows, (s: Submission) => AdminDashboard.TypeMatches(s, typeFilter) && InView(s, view))
    ensures IsSubsequence(ViewFilter(rows, typeFilter, view), rows)
    ensures view != "unassigned" ==> ViewFilter(rows, typeFilter, view) == AdminDashboard.ViewFilter(rows, typeFilter, view)
  {
    var typed := AdminDashboard.TypeStage(rows, typeFilter);
    var vp := (s: Submission) => InView(s, view);
    var conj := (s: Submission) => AdminDashboard.TypeMatches(s, typeFilter) && InView(s, view);
    if view == "assigned" {
      FilterExt(typed, (s: Submission) => s.status == Assigned, vp);
    } else if view == "selected" {
      FilterExt(typed, (s: Submission) => s.status == Selected, vp);
    } else if view == "rejected" {
      FilterExt(typed, (s: Submission) => s.status == Rejected, vp);
    } else {
      FilterAll(typed, vp);
    }
    AdminDashboard.TypeStageIsFilter(rows, typeFilter);
    FilterFilter(rows, (s: Submission) => AdminDashboard.TypeMatches(s, typeFilter), vp, conj);
    FilterIsSubsequence(rows, conj);
    if view != "unassigned" {
      AdminDashboard.ViewFilterIsConjunction(rows, typeFilter, view);
      FilterExt(rows, conj, (s: Submission) => AdminDashboard.TypeMatches(s, typeFilter) && AdminDashboard.InView(s, view));
    }
  }
}
