/** The rows of the two tables the workflow works on (`paper_submissions`
    and `reviewers`), the sessions kept in local storage, and the field
    updates the handlers send to the store. */
module Records {
  import opened Wrappers
  import opened Seqs

  /** The four values the `status` column takes. */
  datatype Status = Pending | Assigned | Selected | Rejected

  /** The string stored for a status. */
  function StatusName(s: Status): string {
    match s
    case Pending => "pending"
    case Assigned => "assigned"
    case Selected => "selected"
    case Rejected => "rejected"
  }

  function ParseStatus(s: string): Option<Status> {
    if s == "pending" then Some(Pending)
    else if s == "assigned" then Some(Assigned)
    else if s == "selected" then Some(Selected)
    else if s == "rejected" then Some(Rejected)
    else None
  }

  /** The stored names and the parser are inverse to each other. */
  lemma StatusNameParse(s: Status, t: string)
    ensures ParseStatus(StatusName(s)) == Some(s)
    ensures ParseStatus(t).Some? ==> StatusName(ParseStatus(t).value) == t
  {
  }

  /** One row of `paper_submissions`. */
  datatype Submission = Submission(
    id: string,
    submissionId: Option<string>,
    submissionType: string,
    authorName: string,
    coAuthorName: string,
    email: string,
    phoneCountryCode: string,
    phoneNumber: string,
    whatsappCountryCode: string,
    whatsappNumber: Option<string>,
    paperTitle: string,
    institution: string,
    designation: string,
    department: string,
    presentationMode: string,
    journalPublication: string,
    message: string,
    documentUrl: Option<string>,
    documentName: Option<string>,
    status: Status,
    assignedTo: Option<string>,
    remarks: Option<string>,
    submittedAt: string,
    updatedAt: string)

  /** One row of `reviewers`. */
  datatype Reviewer = Reviewer(
    id: string,
    name: string,
    email: string,
    phone: string,
    username: string,
    password: string,
    isActive: bool,
    createdAt: string)

  /** The `currentUser` object kept in local storage. */
  datatype Session = Session(id: string, username: string, name: string, email: string, role: string, createdAt: string)

  /** How a template literal prints a nullable column: `${null}` is "null". */
  function Interpolate(o: Option<string>): string {
    match o
    case Some(s) => s
    case None => "null"
  }

  /** The two rows differ at most in the workflow columns
      (status, assigned_to, remarks, updated_at). */
  predicate SameExceptWorkflow(a: Submission, b: Submission) {
    a.(status := b.status, assignedTo := b.assignedTo, remarks := b.remarks, updatedAt := b.updatedAt) == b
  }

  /** The assignment update: `assigned_to`, `status := 'assigned'` and
      `updated_at`, nothing else. */
  function WithAssignment(s: Submission, reviewerId: string, now: string): (r: Submission)
    ensures SameExceptWorkflow(s, r) && r.remarks == s.remarks
    ensures r.status == Assigned && r.assignedTo == Some(reviewerId) && r.updatedAt == now
  {
    s.(assignedTo := Some(reviewerId), status := Assigned, updatedAt := now)
  }

  /** The administrator's status override: `status` and `updated_at` only. */
  function WithStatus(s: Submission, status: Status, now: string): (r: Submission)
    ensures SameExceptWorkflow(s, r) && r.remarks == s.remarks && r.assignedTo == s.assignedTo
    ensures r.status == status && r.updatedAt == now
  {
    s.(status := status, updatedAt := now)
  }

  /** A decision: `status`, `remarks` and `updated_at`; the reviewer stays. */
  function WithDecision(s: Submission, status: Status, remarks: Option<string>, now: string): (r: Submission)
    ensures SameExceptWorkflow(s, r) && r.assignedTo == s.assignedTo
    ensures r.status == status && r.remarks == remarks && r.updatedAt == now
  {
    s.(status := status, remarks := remarks, updatedAt := now)
  }

  /** `.update(patch).eq('id', id)`: the patch applied to the row with that
      id, if there is one; no row matching is not an error. */
  function UpdateWhere(rows: map<string, Submission>, id: string, patch: Submission -> Submission): (r: map<string, Submission>)
    ensures r.Keys == rows.Keys
    ensures forall k :: k in rows && k != id ==> r[k] == rows[k]
    ensures id in rows ==> r[id] == patch(rows[id])
  {
    if id in rows then rows[id := patch(rows[id])] else rows
  }

  /** The write touched at most the row `id`: same keys, every other row as before. */
  predicate OtherRowsKept<V(==)>(before: map<string, V>, after: map<string, V>, id: string) {
    after.Keys == before.Keys && forall k :: k in before && k != id ==> after[k] == before[k]
  }

  /** `submissions.find(s => s.id === id)` */
  function SubmissionById(rows: seq<Submission>, id: string): (r: Option<Submission>)
    ensures r.Some? ==> r.value in rows && r.value.id == id
    ensures r.None? <==> forall i :: 0 <= i < |rows| ==> rows[i].id != id
  {
    Find(rows, (s: Submission) => s.id == id)
  }

  /** `reviewers.find(r => r.id === id)` */
  function ReviewerById(rows: seq<Reviewer>, id: string): (r: Option<Reviewer>)
    ensures r.Some? ==> r.value in rows && r.value.id == id
    ensures r.None? <==> forall i :: 0 <= i < |rows| ==> rows[i].id != id
  {
    Find(rows, (v: Reviewer) => v.id == id)
  }
}
