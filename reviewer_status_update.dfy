/** The decision dialog (src/components/ReviewerStatusUpdate.tsx): its
    `remarks` state, the confirm handler and the gating and styling of the
    confirm button. The dialog stays mounted while it is closed, so
    `newStatus` is a property its parent changes and the `remarks` state
    lives on between openings. */
module ReviewerStatusUpdate {
  import opened Wrappers
  import opened Text
  import Templates

  /** `disabled={newStatus === "rejected" && !remarks.trim()}` */
  predicate ConfirmDisabled(newStatus: string, remarks: string) {
    newStatus == "rejected" && IsBlank(remarks)
  }

  /** The asterisk, the `required` attribute and the hint under the field. */
  predicate RemarksRequired(newStatus: string) {
    newStatus == "rejected"
  }

  /** Confirm is disabled exactly for a rejection whose remarks are all
      white space (the empty string included); the remarks are required
      whenever that can happen. */
  lemma ConfirmDisabledIff(newStatus: string, remarks: string)
    ensures ConfirmDisabled(newStatus, remarks) <==> newStatus == "rejected" && AllSpace(remarks)
    ensures ConfirmDisabled(newStatus, remarks) ==> RemarksRequired(newStatus)
    ensures newStatus == "rejected" && remarks == "" ==> ConfirmDisabled(newStatus, remarks)
  {
    BlankIffAllSpace(remarks);
  }

  datatype Icon = CheckCircle | XCircle | AlertTriangle

  function StatusIcon(newStatus: string): Icon {
    if newStatus == "selected" then CheckCircle else if newStatus == "rejected" then XCircle else AlertTriangle
  }

  function StatusColor(newStatus: string): string {
    if newStatus == "selected" then "text-green-600" else if newStatus == "rejected" then "text-red-600" else "text-yellow-600"
  }

  function ButtonClass(newStatus: string): string {
    if newStatus == "selected" then "bg-green-600 hover:bg-green-700"
    else if newStatus == "rejected" then "bg-red-600 hover:bg-red-700"
    else ""
  }

  function ConfirmLabel(newStatus: string): string {
    "Confirm " + (if newStatus == "selected" then "Selection" else if newStatus == "rejected" then "Rejection" else "Update")
  }

  /** The dialog's icon, colours and label follow the same three-way split
      of the status as the author's email: selected, rejected, anything
      else. */
  lemma StylingFollowsVerdict(newStatus: string)
    ensures StatusIcon(newStatus) == CheckCircle <==> Templates.VerdictOf(newStatus) == Templates.Accepted
    ensures StatusIcon(newStatus) == XCircle <==> Templates.VerdictOf(newStatus) == Templates.Declined
    ensures StatusIcon(newStatus) == AlertTriangle <==> Templates.VerdictOf(newStatus) == Templates.Other
    ensures Templates.VerdictOf(newStatus) == Templates.Accepted ==>
      StatusColor(newStatus) == "text-green-600" && ConfirmLabel(newStatus) == "Confirm Selection"
    ensures Templates.VerdictOf(newStatus) == Templates.Declined ==>
      StatusColor(newStatus) == "text-red-600" && ConfirmLabel(newStatus) == "Confirm Rejection"
    ensures Templates.VerdictOf(newStatus) == Templates.Other ==>
      StatusColor(newStatus) == "text-yellow-600" && ConfirmLabel(newStatus) == "Confirm Update" && ButtonClass(newStatus) == ""
  {
  }

  class Dialog {
    /** The `newStatus` property. */
    var newStatus: string
    var remarks: string

    constructor (newStatus: string)
      ensures this.newStatus == newStatus && remarks == ""
    {
      this.newStatus := newStatus;
      remarks := "";
    }

    /** The parent renders the dialog with another `newStatus` (it opens
        for another decision, or closes): the typed remarks stay, since
        nothing but `handleConfirm` clears them. */
    method ReceiveStatus(status: string)
      modifies this
      ensures newStatus == status && remarks == old(remarks)
    {
      newStatus := status;
    }

    /** The textarea's `onChange`. */
    method SetRemarks(value: string)
      modifies this
      ensures remarks == value && newStatus == old(newStatus)
    {
      remarks := value;
    }

    /** `handleConfirm`: hands the remarks over as typed (not trimmed), then
        clears the field. */
    method HandleConfirm() returns (passed: string)
      modifies this
      ensures passed == old(remarks) && remarks == "" && newStatus == old(newStatus)
    {
      passed := remarks;
      remarks := "";
    }

    /** A click on the confirm button: a disabled button does nothing;
        otherwise `handleConfirm` runs. So a rejection never reaches the
        caller with blank remarks. */
    method ClickConfirm() returns (passed: Option<string>)
      modifies this
      ensures newStatus == old(newStatus)
      ensures ConfirmDisabled(newStatus, old(remarks)) ==> passed == None && remarks == old(remarks)
      ensures !ConfirmDisabled(newStatus, old(remarks)) ==> passed == Some(old(remarks)) && remarks == ""
      ensures passed.Some? && newStatus == "rejected" ==> !IsBlank(passed.value)
    {
      if ConfirmDisabled(newStatus, remarks) {
        return None;
      }
      var r := HandleConfirm();
      passed := Some(r);
    }
  }
}
