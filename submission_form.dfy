/** The public submission form (src/pages/Index.tsx): validation, the
    document picker and the submit sequence (upload, insert, confirmation
    email). The upload server, the insert and the edge function are inputs. */
module SubmissionForm {
  import opened Wrappers
  import opened Text
  import opened Records
  import opened Templates
  import opened Store
  import opened EmailService
  import opened FormValidation
  import opened FormErrors

  /** The row `handleSubmit` inserts: always "pending", `journal_publication`
      "no", no reviewer and no remarks; `id` and `submission_id` come from
      the database. */
  function NewRow(form: FormData, id: string, submissionId: Option<string>, documentUrl: string, file: FileInfo,
                  now: string): (r: Submission)
    ensures r.status == Pending && r.journalPublication == "no" && r.assignedTo.None? && r.remarks.None?
    ensures r.authorName == form.authorName && r.email == form.email && r.paperTitle == form.paperTitle
    ensures r.documentUrl == Some(documentUrl) && r.documentName == Some(file.name)
  {
    Submission(id, submissionId, form.submissionType, form.authorName, form.coAuthorName, form.email,
      form.phoneCountryCode, form.phoneNumber, form.whatsappCountryCode, Some(form.whatsappNumber), form.paperTitle,
      form.institution, form.designation, form.department, form.presentationMode, "no", form.message,
      Some(documentUrl), Some(file.name), Pending, None, None, now, now)
  }

  /** `submission.submission_id || "Unknown"` */
  function DisplayId(submissionId: Option<string>): (r: string)
    ensures r != ""
    ensures submissionId.Some? && submissionId.value != "" ==> r == submissionId.value
    ensures submissionId.None? || submissionId.value == "" ==> r == "Unknown"
  {
    if submissionId.Some? && submissionId.value != "" then submissionId.value else "Unknown"
  }

  function ConfirmationMail(form: FormData, submissionId: Option<string>): EmailData {
    EmailData(form.email, "Acknowledgment of Abstract Submission - ICAIEA 2026",
      ConfirmationTemplate(form.authorName, form.paperTitle, DisplayId(submissionId)))
  }

  /** `.doc` or `.docx` after lower-casing the name. */
  predicate AcceptedFileName(name: string) {
    EndsWith(ToLower(name), ".doc") || EndsWith(ToLower(name), ".docx")
  }

  /** What the inserted row got back from the database. */
  datatype Inserted = Inserted(id: string, submissionId: Option<string>)

  datatype SubmitOutcome =
    | Invalid
    | NotAuthenticated
    | Error(message: string)
    | Submitted(displayId: string, confirmation: Delivery)

  class Form {
    const db: Backend
    var formData: FormData
    var selectedFile: Option<FileInfo>
    /** The value of the hidden file input. */
    var fileInputValue: string
    var errors: map<FieldKey, Problem>
    var isSubmitting: bool
    var showForm: bool
    var isAuthenticated: bool

    constructor (db: Backend, isAuthenticated: bool)
      ensures this.db == db && this.isAuthenticated == isAuthenticated
      ensures formData == InitialForm && selectedFile == None && errors == map[] && !isSubmitting && !showForm
    {
      this.db := db;
      formData := InitialForm;
      selectedFile := None;
      fileInputValue := "";
      errors := map[];
      isSubmitting := false;
      showForm := false;
      this.isAuthenticated := isAuthenticated;
    }

    /** `validateForm`: stores the error record and succeeds iff it is
        empty, which is iff the form is complete. */
    method ValidateForm() returns (ok: bool)
      modifies this
      ensures formData == old(formData) && selectedFile == old(selectedFile) && fileInputValue == old(fileInputValue)
      ensures isSubmitting == old(isSubmitting) && showForm == old(showForm) && isAuthenticated == old(isAuthenticated)
      ensures errors == Errors(formData, selectedFile)
      ensures ok <==> errors == map[]
      ensures ok <==> Complete(formData, selectedFile)
      ensures ok ==> selectedFile.Some?
    {
      errors := Errors(formData, selectedFile);
      ok := errors == map[];
      ErrorsEmptyIffComplete(formData, selectedFile);
    }

    /** `handleFileSelect`: a picked file is kept only when its lower-cased
        name ends in ".doc" or ".docx"; otherwise the input is cleared and
        the previous choice stays. */
    method HandleFileSelect(file: Option<FileInfo>)
      modifies this
      ensures formData == old(formData) && errors == old(errors) && isSubmitting == old(isSubmitting)
      ensures showForm == old(showForm) && isAuthenticated == old(isAuthenticated)
      ensures file.None? ==> selectedFile == old(selectedFile) && fileInputValue == old(fileInputValue)
      ensures file.Some? && AcceptedFileName(file.value.name) ==>
        selectedFile == file && fileInputValue == old(fileInputValue)
      ensures file.Some? && !AcceptedFileName(file.value.name) ==>
        selectedFile == old(selectedFile) && fileInputValue == ""
    {
      if file.Some? {
        if !AcceptedFileName(file.value.name) {
          fileInputValue := "";
          return;
        }
        selectedFile := file;
      }
    }

    /** `removeFile` */
    method RemoveFile()
      modifies this
      ensures selectedFile == None && fileInputValue == ""
      ensures formData == old(formData) && errors == old(errors) && isSubmitting == old(isSubmitting)
      ensures showForm == old(showForm) && isAuthenticated == old(isAuthenticated)
    {
      selectedFile := None;
      fileInputValue := "";
    }

    /** The `try` block of `handleSubmit` once validation and the
        authentication flag have passed: upload, then insert, then the
        confirmation email; the first failure is the outcome. */
    method SubmitDocument(file: FileInfo, upload: Result<string, string>, insert: Result<Inserted, string>,
                          now: string, invoke: InvokeOutcome) returns (outcome: SubmitOutcome)
      modifies this, db
      ensures formData == old(formData) && selectedFile == old(selectedFile) && isAuthenticated == old(isAuthenticated)
      ensures fileInputValue == old(fileInputValue)
      ensures errors == old(errors) && isSubmitting == old(isSubmitting) && db.reviewers == old(db.reviewers)
      ensures upload.Err? ==> outcome == Error(upload.error)
      ensures upload.Ok? && insert.Err? ==> outcome == Error(insert.error)
      ensures outcome.Error? ==>
        db.submissions == old(db.submissions) && db.invocations == old(db.invocations) && showForm == old(showForm)
      ensures outcome.Submitted? <==> upload.Ok? && insert.Ok?
      ensures outcome.Submitted? ==>
        var row := NewRow(formData, insert.value.id, insert.value.submissionId, upload.value, file, now);
        var mail := ConfirmationMail(formData, insert.value.submissionId);
        db.submissions == old(db.submissions)[insert.value.id := row]
        && db.invocations == old(db.invocations) + Queued(mail)
        && outcome == Submitted(DisplayId(insert.value.submissionId), Outcome(mail, invoke))
        && !showForm
    {
      if upload.Err? {
        outcome := Error(upload.error);
      } else if insert.Err? {
        outcome := Error(insert.error);
      } else {
        var row := NewRow(formData, insert.value.id, insert.value.submissionId, upload.value, file, now);
        db.submissions := db.submissions[insert.value.id := row];
        var r := SendEmail(db, ConfirmationMail(formData, insert.value.submissionId), invoke);
        outcome := Submitted(DisplayId(insert.value.submissionId), DeliveryOf(r));
        showForm := false;
      }
    }

    /** `handleSubmit`. Validation and the authentication flag are checked
        before anything is sent; the upload comes before the insert, the
        insert before the email; a failed email still ends in success;
        `isSubmitting` is false afterwards whatever happened. */
    method HandleSubmit(upload: Result<string, string>, insert: Result<Inserted, string>, now: string,
                        invoke: InvokeOutcome) returns (outcome: SubmitOutcome)
      requires !isSubmitting
      modifies this, db
      ensures !isSubmitting
      ensures formData == old(formData) && selectedFile == old(selectedFile) && isAuthenticated == old(isAuthenticated)
      ensures fileInputValue == old(fileInputValue) && db.reviewers == old(db.reviewers)
      ensures errors == Errors(formData, selectedFile)
      ensures outcome.Invalid? <==> !Complete(formData, selectedFile)
      ensures outcome.Invalid? || outcome.NotAuthenticated? || outcome.Error? ==>
        db.submissions == old(db.submissions) && db.invocations == old(db.invocations) && showForm == old(showForm)
      ensures outcome.Invalid? <==> errors != map[]
      ensures outcome.NotAuthenticated? <==> errors == map[] && !isAuthenticated
      ensures upload.Err? && errors == map[] && isAuthenticated ==> outcome == Error(upload.error)
      ensures upload.Ok? && insert.Err? && errors == map[] && isAuthenticated ==> outcome == Error(insert.error)
      ensures outcome.Submitted? <==> errors == map[] && isAuthenticated && upload.Ok? && insert.Ok?
      ensures outcome.Submitted? ==> (selectedFile.Some? &&
        var row := NewRow(formData, insert.value.id, insert.value.submissionId, upload.value, selectedFile.value, now);
        var mail := ConfirmationMail(formData, insert.value.submissionId);
        db.submissions == old(db.submissions)[insert.value.id := row]
        && db.invocations == old(db.invocations) + Queued(mail)
        && outcome == Submitted(DisplayId(insert.value.submissionId), Outcome(mail, invoke))
        && !showForm)
    {
      var valid := ValidateForm();
      if !valid {
        return Invalid;
      }
      if !isAuthenticated {
        return NotAuthenticated;
      }
      isSubmitting := true;
      // validation has already required a document, so the source's
      // "No file selected" error cannot arise here
      outcome := SubmitDocument(selectedFile.value, upload, insert, now, invoke);
      isSubmitting := false;
    }
  }
}
