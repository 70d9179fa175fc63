/** The administrator's dashboard (src/pages/AdminDashboard.tsx): the
    handlers that assign reviewers, change a submission's status (plainly or
    as a decision with remarks) and switch reviewers on and off, and the
    pure view filter and counters. The page keeps an in-memory snapshot of
    both tables, loaded before the handler runs; the handlers look up email
    recipients in that snapshot, not in the freshly written rows. */
module AdminDashboard {
  import opened Wrappers
  import opened Seqs
  import opened Records
  import opened Store
  import opened Templates
  import opened EmailService
  import SearchFilter

  /** `assignReviewerDialog` */
  datatype AssignDialog = AssignDialog(isOpen: bool, submissionId: string, reviewerId: string, paperTitle: string,
                                       reviewerName: string, isLoading: bool)

  /** `statusUpdate` and `reviewerStatusUpdate`; the statuses are None while
      they hold the initial empty string. */
  datatype StatusDialog = StatusDialog(isOpen: bool, submissionId: string, currentStatus: Option<Status>,
                                       newStatus: Option<Status>, paperTitle: string)

  const ClosedAssignDialog := AssignDialog(false, "", "", "", "", false)
  const ClosedStatusDialog := StatusDialog(false, "", None, None, "")

  /** The assignment email to the reviewer. */
  function AssignmentMail(sub: Submission, rev: Reviewer, today: int, formatDate: int -> string): EmailData {
    EmailData(rev.email, "New Paper Assignment: " + Interpolate(sub.submissionId) + " - " + sub.paperTitle,
      AssignmentTemplate(rev.name, sub.paperTitle, sub.authorName, Interpolate(sub.submissionId),
                         formatDate(ReviewDeadline(today))))
  }

  /** The reviewer a status change notifies: the one the snapshot row names
      in a non-empty `assigned_to`, if the snapshot has that reviewer. */
  function AssignedReviewer(sub: Option<Submission>, reviewers: seq<Reviewer>): (r: Option<Reviewer>)
    ensures r.Some? ==> sub.Some? && sub.value.assignedTo == Some(r.value.id) && r.value in reviewers
    ensures (sub.Some? && sub.value.assignedTo.Some? && sub.value.assignedTo.value != ""
             && exists i :: 0 <= i < |reviewers| && reviewers[i].id == sub.value.assignedTo.value) ==> r.Some?
    ensures sub.None? || sub.value.assignedTo.None? ==> r.None?
  {
    if sub.Some? && sub.value.assignedTo.Some? && sub.value.assignedTo.value != "" then
      ReviewerById(reviewers, sub.value.assignedTo.value)
    else None
  }

  /** The status-update email to the assigned reviewer, if there is one. */
  function ReviewerNotice(sub: Option<Submission>, reviewers: seq<Reviewer>, status: Status): (m: Option<EmailData>)
    ensures m.Some? <==> AssignedReviewer(sub, reviewers).Some?
    ensures m.Some? ==> m.value.to == AssignedReviewer(sub, reviewers).value.email
  {
    match AssignedReviewer(sub, reviewers)
    case None => None
    case Some(rev) =>
      var s := sub.value;
      Some(EmailData(rev.email, "Status Update: " + Interpolate(s.submissionId) + " - " + s.paperTitle,
        StatusUpdateTemplate(rev.name, s.paperTitle, StatusName(status), Interpolate(s.submissionId))))
  }

  /** The decision email to the author of the snapshot row, if there is one. */
  function AuthorNotice(sub: Option<Submission>, status: Status, remarks: string): (m: Option<EmailData>)
    ensures m.Some? <==> sub.Some?
    ensures m.Some? ==> m.value.to == sub.value.email
  {
    match sub
    case None => None
    case Some(s) =>
      Some(StudentStatusMail(s.email, s.authorName, s.paperTitle, StatusName(status), Interpolate(s.submissionId), remarks))
  }

  /** The two notifications of a decision, each in its own error handler:
      first the assigned reviewer, then the author, whatever happened to the
      first. */
  method NotifyDecision(db: Backend, sub: Option<Submission>, reviewers: seq<Reviewer>, status: Status, remarks: string,
                        reviewerInvoke: InvokeOutcome, authorInvoke: InvokeOutcome)
    returns (reviewerDelivery: Delivery, authorDelivery: Delivery)
    modifies db
    ensures db.submissions == old(db.submissions) && db.reviewers == old(db.reviewers)
    ensures var toReviewer, toAuthor := ReviewerNotice(sub, reviewers, status), AuthorNotice(sub, status, remarks);
      db.invocations == old(db.invocations) + QueuedAll(toReviewer) + QueuedAll(toAuthor)
      && reviewerDelivery == OutcomeAll(toReviewer, reviewerInvoke)
      && authorDelivery == OutcomeAll(toAuthor, authorInvoke)
  {
    var toReviewer := ReviewerNotice(sub, reviewers, status);
    reviewerDelivery := NotAttempted;
    if toReviewer.Some? {
      var r := SendEmail(db, toReviewer.value, reviewerInvoke);
      reviewerDelivery := DeliveryOf(r);
    }
    ghost var middle := db.invocations;
    authorDelivery := NotAttempted;
    if sub.Some? {
      var s := sub.value;
      var r := SendStudentStatusUpdateEmail(db, s.email, s.authorName, s.paperTitle, StatusName(status),
                                            Interpolate(s.submissionId), remarks, authorInvoke);
      authorDelivery := DeliveryOf(r);
    }
    assert db.invocations == middle + QueuedAll(AuthorNotice(sub, status, remarks));
  }

  class Dashboard {
    const db: Backend
    /** The snapshot of `paper_submissions` the page last loaded. */
    var submissions: seq<Submission>
    /** The snapshot of `reviewers`. */
    var reviewers: seq<Reviewer>
    var assignDialog: AssignDialog
    var statusUpdate: StatusDialog
    var reviewerStatusUpdate: StatusDialog

    constructor (db: Backend, submissions: seq<Submission>, reviewers: seq<Reviewer>)
      ensures this.db == db && this.submissions == submissions && this.reviewers == reviewers
      ensures assignDialog == ClosedAssignDialog
      ensures statusUpdate == ClosedStatusDialog && reviewerStatusUpdate == ClosedStatusDialog
    {
      this.db := db;
      this.submissions := submissions;
      this.reviewers := reviewers;
      assignDialog := ClosedAssignDialog;
      statusUpdate := ClosedStatusDialog;
      reviewerStatusUpdate := ClosedStatusDialog;
    }

    /** `handleAssignReviewerRequest`: opens the confirmation only when both
        the submission and the reviewer are in the snapshot. */
    method HandleAssignReviewerRequest(submissionId: string, reviewerId: string)
      modifies this
      ensures submissions == old(submissions) && reviewers == old(reviewers)
      ensures statusUpdate == old(statusUpdate) && reviewerStatusUpdate == old(reviewerStatusUpdate)
      ensures var sub, rev := SubmissionById(submissions, submissionId), ReviewerById(reviewers, reviewerId);
        if sub.Some? && rev.Some? then
          assignDialog == AssignDialog(true, submissionId, reviewerId, sub.value.paperTitle, rev.value.name, false)
        else assignDialog == old(assignDialog)
    {
      var sub := SubmissionById(submissions, submissionId);
      var rev := ReviewerById(reviewers, reviewerId);
      if sub.Some? && rev.Some? {
        assignDialog := AssignDialog(true, submissionId, reviewerId, sub.value.paperTitle, rev.value.name, false);
      }
    }

    /** `confirmAssignReviewer`. The row write comes first; if it fails
        nothing else happens and the dialog stays open. After a successful
        write the email goes out only when the snapshot has both the
        submission and the reviewer, and its failure neither undoes the
        write nor keeps the dialog open. */
    method ConfirmAssignReviewer(now: string, today: int, formatDate: int -> string, writeOk: bool, invoke: InvokeOutcome)
      returns (delivery: Delivery)
      modifies this, db
      ensures submissions == old(submissions) && reviewers == old(reviewers)
      ensures statusUpdate == old(statusUpdate) && reviewerStatusUpdate == old(reviewerStatusUpdate)
      ensures db.reviewers == old(db.reviewers)
      ensures !writeOk ==>
        db.submissions == old(db.submissions) && db.invocations == old(db.invocations)
        && delivery == NotAttempted && assignDialog == old(assignDialog).(isLoading := false)
      ensures writeOk ==>
        var d := old(assignDialog);
        OtherRowsKept(old(db.submissions), db.submissions, d.submissionId)
        && (d.submissionId in old(db.submissions) ==>
              db.submissions[d.submissionId] == WithAssignment(old(db.submissions)[d.submissionId], d.reviewerId, now))
        && assignDialog == d.(isOpen := false, isLoading := false)
      ensures writeOk ==>
        var d := old(assignDialog);
        var sub, rev := SubmissionById(submissions, d.submissionId), ReviewerById(reviewers, d.reviewerId);
        if sub.Some? && rev.Some? then
          var mail := AssignmentMail(sub.value, rev.value, today, formatDate);
          db.invocations == old(db.invocations) + Queued(mail) && delivery == Outcome(mail, invoke)
        else
          db.invocations == old(db.invocations) && delivery == NotAttempted
    {
      assignDialog := assignDialog.(isLoading := true);
      if !writeOk {
        assignDialog := assignDialog.(isLoading := false);
        return NotAttempted;
      }
      var d := assignDialog;
      db.submissions := UpdateWhere(db.submissions, d.submissionId, s => WithAssignment(s, d.reviewerId, now));
      var sub := SubmissionById(submissions, d.submissionId);
      var rev := ReviewerById(reviewers, d.reviewerId);
      delivery := NotAttempted;
      if sub.Some? && rev.Some? {
        var r := SendEmail(db, AssignmentMail(sub.value, rev.value, today, formatDate), invoke);
        delivery := DeliveryOf(r);
      }
      assignDialog := assignDialog.(isOpen := false, isLoading := false);
    }

    /** `handleStatusUpdateRequest`: "selected" and "rejected" open the
        remarks dialog, the other two statuses the plain confirmation; a
        submission missing from the snapshot opens nothing. Any status may
        be requested from any status. */
    method HandleStatusUpdateRequest(submissionId: string, newStatus: Status)
      modifies this
      ensures submissions == old(submissions) && reviewers == old(reviewers) && assignDialog == old(assignDialog)
      ensures var sub := SubmissionById(submissions, submissionId);
        if sub.None? then
          statusUpdate == old(statusUpdate) && reviewerStatusUpdate == old(reviewerStatusUpdate)
        else
          var dialog := StatusDialog(true, submissionId, Some(sub.value.status), Some(newStatus), sub.value.paperTitle);
          if newStatus == Selected || newStatus == Rejected then
            reviewerStatusUpdate == dialog && statusUpdate == old(statusUpdate)
          else
            statusUpdate == dialog && reviewerStatusUpdate == old(reviewerStatusUpdate)
    {
      var sub := SubmissionById(submissions, submissionId);
      if sub.Some? {
        var dialog := StatusDialog(true, submissionId, Some(sub.value.status), Some(newStatus), sub.value.paperTitle);
        if newStatus == Selected || newStatus == Rejected {
          reviewerStatusUpdate := dialog;
        } else {
          statusUpdate := dialog;
        }
      }
    }

    /** `confirmStatusUpdate`: writes `status` and `updated_at` only (so
        "pending" keeps the reviewer and the remarks), then notifies the
        assigned reviewer, never the author. A failed write changes
        nothing. */
    method ConfirmStatusUpdate(now: string, writeOk: bool, invoke: InvokeOutcome) returns (delivery: Delivery)
      requires statusUpdate.newStatus.Some?
      modifies this, db
      ensures submissions == old(submissions) && reviewers == old(reviewers)
      ensures assignDialog == old(assignDialog) && reviewerStatusUpdate == old(reviewerStatusUpdate)
      ensures db.reviewers == old(db.reviewers)
      ensures !writeOk ==>
        db.submissions == old(db.submissions) && db.invocations == old(db.invocations)
        && delivery == NotAttempted && statusUpdate == old(statusUpdate)
      ensures writeOk ==>
        var d := old(statusUpdate);
        OtherRowsKept(old(db.submissions), db.submissions, d.submissionId)
        && (d.submissionId in old(db.submissions) ==>
              db.submissions[d.submissionId] == WithStatus(old(db.submissions)[d.submissionId], d.newStatus.value, now))
        && statusUpdate == d.(isOpen := false)
      ensures writeOk ==>
        var d := old(statusUpdate);
        var notice := ReviewerNotice(SubmissionById(submissions, d.submissionId), reviewers, d.newStatus.value);
        if notice.Some? then
          db.invocations == old(db.invocations) + Queued(notice.value) && delivery == Outcome(notice.value, invoke)
        else
          db.invocations == old(db.invocations) && delivery == NotAttempted
    {
      if !writeOk {
        return NotAttempted;
      }
      var d := statusUpdate;
      var status := d.newStatus.value;
      db.submissions := UpdateWhere(db.submissions, d.submissionId, s => WithStatus(s, status, now));
      var notice := ReviewerNotice(SubmissionById(submissions, d.submissionId), reviewers, status);
      delivery := NotAttempted;
      if notice.Some? {
        var r := SendEmail(db, notice.value, invoke);
        delivery := DeliveryOf(r);
      }
      statusUpdate := statusUpdate.(isOpen := false);
    }

    /** `confirmReviewerStatusUpdate`: writes `status`, `remarks` (as given,
        an empty string included) and `updated_at`, then tries the assigned
        reviewer and the author, each in its own error handler: whether the
        author is tried depends only on the snapshot having the row. */
    method ConfirmReviewerStatusUpdate(remarks: string, now: string, writeOk: bool,
                                       reviewerInvoke: InvokeOutcome, authorInvoke: InvokeOutcome)
      returns (reviewerDelivery: Delivery, authorDelivery: Delivery)
      requires reviewerStatusUpdate.newStatus.Some?
      modifies this, db
      ensures submissions == old(submissions) && reviewers == old(reviewers)
      ensures assignDialog == old(assignDialog) && statusUpdate == old(statusUpdate)
      ensures db.reviewers == old(db.reviewers)
      ensures !writeOk ==>
        db.submissions == old(db.submissions) && db.invocations == old(db.invocations)
        && reviewerDelivery == NotAttempted && authorDelivery == NotAttempted
        && reviewerStatusUpdate == old(reviewerStatusUpdate)
      ensures writeOk ==>
        var d := old(reviewerStatusUpdate);
        OtherRowsKept(old(db.submissions), db.submissions, d.submissionId)
        && (d.submissionId in old(db.submissions) ==>
              db.submissions[d.submissionId]
                == WithDecision(old(db.submissions)[d.submissionId], d.newStatus.value, Some(remarks), now))
        && reviewerStatusUpdate == d.(isOpen := false)
      ensures writeOk ==>
        var d := old(reviewerStatusUpdate);
        var sub := SubmissionById(submissions, d.submissionId);
        var toReviewer := ReviewerNotice(sub, reviewers, d.newStatus.value);
        var toAuthor := AuthorNotice(sub, d.newStatus.value, remarks);
        db.invocations == old(db.invocations) + QueuedAll(toReviewer) + QueuedAll(toAuthor)
        && reviewerDelivery == OutcomeAll(toReviewer, reviewerInvoke)
        && authorDelivery == OutcomeAll(toAuthor, authorInvoke)
    {
      if !writeOk {
        return NotAttempted, NotAttempted;
      }
      var d := reviewerStatusUpdate;
      var status := d.newStatus.value;
      db.submissions := UpdateWhere(db.submissions, d.submissionId, s => WithDecision(s, status, Some(remarks), now));
      var sub := SubmissionById(submissions, d.submissionId);
      reviewerDelivery, authorDelivery := NotifyDecision(db, sub, reviewers, status, remarks, reviewerInvoke, authorInvoke);
      reviewerStatusUpdate := reviewerStatusUpdate.(isOpen := false);
    }

    /** `toggleReviewerStatus`: writes `is_active := !currentStatus` on that
        reviewer and nothing else. */
    method ToggleReviewerStatus(reviewerId: string, currentStatus: bool, writeOk: bool)
      modifies db
      ensures db.submissions == old(db.submissions) && db.invocations == old(db.invocations)
      ensures !writeOk ==> db.reviewers == old(db.reviewers)
      ensures writeOk ==>
        OtherRowsKept(old(db.reviewers), db.reviewers, reviewerId)
        && (reviewerId in old(db.reviewers) ==>
              db.reviewers[reviewerId] == old(db.reviewers)[reviewerId].(isActive := !currentStatus))
    {
      if writeOk && reviewerId in db.reviewers {
        db.reviewers := db.reviewers[reviewerId := db.reviewers[reviewerId].(isActive := !currentStatus)];
      }
    }
  }

  /** The type selector: "all" or one `submission_type`. */
  predicate TypeMatches(s: Submission, typeFilter: string) {
    typeFilter == "all" || s.submissionType == typeFilter
  }

  /** The sidebar view: "unassigned" is a null `assigned_to` or a pending
      status, the three status views compare the status, any other view
      ("all-data", "dashboard", …) shows every row. */
  predicate InView(s: Submission, view: string) {
    if view == "unassigned" then s.assignedTo.None? || s.status == Pending
    else if view == "assigned" then s.status == Assigned
    else if view == "selected" then s.status == Selected
    else if view == "rejected" then s.status == Rejected
    else true
  }

  /** The first stage of `getFilteredSubmissions`. */
  function TypeStage(rows: seq<Submission>, typeFilter: string): seq<Submission> {
    if typeFilter != "all" then Filter(rows, (s: Submission) => s.submissionType == typeFilter) else rows
  }

  /** The second stage: the `switch` on the active view. */
  function ViewStage(typed: seq<Submission>, view: string): seq<Submission> {
    if view == "unassigned" then Filter(typed, (s: Submission) => s.assignedTo.None? || s.status == Pending)
    else if view == "assigned" then Filter(typed, (s: Submission) => s.status == Assigned)
    else if view == "selected" then Filter(typed, (s: Submission) => s.status == Selected)
    else if view == "rejected" then Filter(typed, (s: Submission) => s.status == Rejected)
    else typed
  }

  /** `getFilteredSubmissions`: the type filter, then the view filter. */
  function ViewFilter(rows: seq<Submission>, typeFilter: string, view: string): seq<Submission> {
    ViewStage(TypeStage(rows, typeFilter), view)
  }

  lemma TypeStageIsFilter(rows: seq<Submission>, typeFilter: string)
    ensures TypeStage(rows, typeFilter) == Filter(rows, (s: Submission) => TypeMatches(s, typeFilter))
  {
    if typeFilter != "all" {
      FilterExt(rows, (s: Submission) => s.submissionType == typeFilter, (s: Submission) => TypeMatches(s, typeFilter));
    } else {
      FilterAll(rows, (s: Submission) => TypeMatches(s, typeFilter));
    }
  }

  lemma ViewStageIsFilter(typed: seq<Submission>, view: string)
    ensures ViewStage(typed, view) == Filter(typed, (s: Submission) => InView(s, view))
  {
    var p := (s: Submission) => InView(s, view);
    if view == "unassigned" {
      FilterExt(typed, (s: Submission) => s.assignedTo.None? || s.status == Pending, p);
    } else if view == "assigned" {
      FilterExt(typed, (s: Submission) => s.status == Assigned, p);
    } else if view == "selected" {
      FilterExt(typed, (s: Submission) => s.status == Selected, p);
    } else if view == "rejected" {
      FilterExt(typed, (s: Submission) => s.status == Rejected, p);
    } else {
      FilterAll(typed, p);
    }
  }

  /** The two-stage filter is one filter by the conjunction of the type and
      view conditions; so it keeps exactly the rows meeting both, in their
      original order. */
  lemma ViewFilterIsConjunction(rows: seq<Submission>, typeFilter: string, view: string)
    ensures ViewFilter(rows, typeFilter, view) == Filter(rows, (s: Submission) => TypeMatches(s, typeFilter) && InView(s, view))
    ensures IsSubsequence(ViewFilter(rows, typeFilter, view), rows)
  {
    var tp := (s: Submission) => TypeMatches(s, typeFilter);
    var vp := (s: Submission) => InView(s, view);
    TypeStageIsFilter(rows, typeFilter);
    ViewStageIsFilter(TypeStage(rows, typeFilter), view);
    FilterFilter(rows, tp, vp, (s: Submission) => TypeMatches(s, typeFilter) && InView(s, view));
    FilterIsSubsequence(rows, (s: Submission) => TypeMatches(s, typeFilter) && InView(s, view));
  }

  /** `submissions.filter(s => s.status === st).length` */
  function CountStatus(rows: seq<Submission>, st: Status): nat {
    |Filter(rows, (s: Submission) => s.status == st)|
  }

  /** The four status cards add up to the total: every row has exactly one
      of the four statuses. */
  lemma {:induction false} StatusCountsAddUp(rows: seq<Submission>)
    ensures CountStatus(rows, Pending) + CountStatus(rows, Assigned) + CountStatus(rows, Selected)
            + CountStatus(rows, Rejected) == |rows|
  {
    if rows != [] {
      StatusCountsAddUp(rows[1..]);
    }
  }

  /** A status card counts the whole `submissions` list, while the view of
      that status starts from the search panel's output and applies the type
      selector. So the view never lists more rows than the card counts, and
      exactly as many once no search criterion is active and the type
      selector is on "all". */
  lemma CountMatchesView(rows: seq<Submission>, search: SearchFilter.Criteria, typeFilter: string, st: Status)
    requires st != Pending
    ensures |ViewFilter(SearchFilter.Listed(rows, search), typeFilter, StatusName(st))| <= CountStatus(rows, st)
    ensures typeFilter == "all" && !SearchFilter.HasActiveFilters(search) ==>
      |ViewFilter(SearchFilter.Listed(rows, search), typeFilter, StatusName(st))| == CountStatus(rows, st)
  {
    SearchedViewWithinCount(rows, search, typeFilter, st);
    if typeFilter == "all" && !SearchFilter.HasActiveFilters(search) {
      SearchFilter.InactiveShowsAll(rows, search);
      UnsearchedViewIsCount(rows, st);
    }
  }

  lemma SearchedViewWithinCount(rows: seq<Submission>, search: SearchFilter.Criteria, typeFilter: string, st: Status)
    requires st != Pending
    ensures |ViewFilter(SearchFilter.Listed(rows, search), typeFilter, StatusName(st))| <= CountStatus(rows, st)
  {
    KeptViewWithinCount(rows, (s: Submission) => SearchFilter.Keeps(s, search), typeFilter, st);
  }

  /** Whatever narrows the rows first, a status view shows no more rows
      than carry that status. */
  lemma KeptViewWithinCount(rows: seq<Submission>, keep: Submission -> bool, typeFilter: string, st: Status)
    requires st != Pending
    ensures |ViewFilter(Filter(rows, keep), typeFilter, StatusName(st))| <= CountStatus(rows, st)
  {
    var shown := (s: Submission) => TypeMatches(s, typeFilter) && InView(s, StatusName(st));
    ViewFilterIsConjunction(Filter(rows, keep), typeFilter, StatusName(st));
    FilterFilterWithin(rows, keep, shown, (s: Submission) => s.status == st);
  }

  lemma UnsearchedViewIsCount(rows: seq<Submission>, st: Status)
    requires st != Pending
    ensures |ViewFilter(rows, "all", StatusName(st))| == CountStatus(rows, st)
  {
    ViewFilterIsConjunction(rows, "all", StatusName(st));
    FilterExt(rows, (s: Submission) => s.status == st,
              (s: Submission) => TypeMatches(s, "all") && InView(s, StatusName(st)));
  }

  /** The pending card has no view of its own: every pending row is in the
      "unassigned" view, which also holds the rows without a reviewer. */
  lemma PendingCardWithinUnassigned(rows: seq<Submission>)
    ensures CountStatus(rows, Pending) <= |ViewFilter(rows, "all", "unassigned")|
  {
    ViewFilterIsConjunction(rows, "all", "unassigned");
    FilterMonotone(rows, (s: Submission) => TypeMatches(s, "all") && InView(s, "unassigned"),
                   (s: Submission) => s.status == Pending);
  }

  /** The reviewers offered in the assignment selector (and counted as
      active): `is_active !== false`. */
  function AssignableReviewers(reviewers: seq<Reviewer>): (r: seq<Reviewer>)
    ensures forall i :: 0 <= i < |r| ==> r[i].isActive && r[i] in reviewers
    ensures forall i :: 0 <= i < |reviewers| && reviewers[i].isActive ==> reviewers[i] in r
  {
    Filter(reviewers, (v: Reviewer) => v.isActive)
  }

  /** "N submissions assigned" on a reviewer's card. */
  function AssignedCount(rows: seq<Submission>, reviewerId: string): nat {
    |Filter(rows, (s: Submission) => s.assignedTo == Some(reviewerId))|
  }

  /** The per-reviewer counts never exceed the rows that have a reviewer,
      which are the rows outside the null-`assigned_to` part of the
      "unassigned" view. */
  lemma {:induction false} AssignedCountBound(rows: seq<Submission>, reviewerId: string)
    ensures AssignedCount(rows, reviewerId) + |Filter(rows, (s: Submission) => s.assignedTo.None?)| <= |rows|
  {
    if rows != [] {
      AssignedCountBound(rows[1..], reviewerId);
    }
  }
}
