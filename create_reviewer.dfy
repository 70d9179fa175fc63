/** The dialog that creates a reviewer account
    (src/components/CreateReviewerDialog.tsx): the insert into `reviewers`,
    then the credentials email, then the reset of the form. The insert
    outcome and the edge function's answer are inputs. */
module CreateReviewer {
  import opened Wrappers
  import opened Text
  import opened Html
  import opened Records
  import opened Templates
  import opened Store
  import opened EmailService

  /** The dialog's `formData`; the phone is the number without the country
      code, which is kept apart in `selectedCountry`. */
  datatype ReviewerForm = ReviewerForm(name: string, email: string, phone: string, username: string, password: string)

  const EmptyForm := ReviewerForm("", "", "", "", "")
  const DefaultCountry := "+91"

  /** What the database fills in for a new row: its id, `is_active` and
      `created_at`. */
  datatype Inserted = Inserted(id: string, isActive: bool, createdAt: string)

  /** The row the insert stores: the form's fields, with the phone written
      as the country code followed by the number. */
  function NewReviewer(form: ReviewerForm, country: string, ins: Inserted): (r: Reviewer)
    ensures r.name == form.name && r.email == form.email && r.username == form.username && r.password == form.password
    ensures |r.phone| == |country| + |form.phone|
    ensures r.phone[..|country|] == country && r.phone[|country|..] == form.phone
  {
    Reviewer(ins.id, form.name, form.email, country + form.phone, form.username, form.password, ins.isActive, ins.createdAt)
  }

  /** The email carrying the new account's credentials. */
  function CredentialsMail(form: ReviewerForm): EmailData {
    EmailData(form.email, "Your Reviewer Account Credentials - Anna University",
      CredentialsTemplate(form.name, form.username, form.password))
  }

  /** The credentials email goes to the new reviewer and shows the
      username and password the account was created with. */
  lemma CredentialsMailShowsLogin(form: ReviewerForm)
    ensures CredentialsMail(form).to == form.email
    ensures Includes(CredentialsMail(form).HtmlText(), form.username)
    ensures Includes(CredentialsMail(form).HtmlText(), form.password)
  {
    CredentialsShowLogin(CredentialsMail(form).template);
  }

  /** The toast text of a failed insert: `error.message || "Failed to
      create reviewer"`. */
  function InsertErrorText(message: string): (r: string)
    ensures r != ""
    ensures message != "" ==> r == message
    ensures message == "" ==> r == "Failed to create reviewer"
  {
    if message != "" then message else "Failed to create reviewer"
  }

  /** How `handleSubmit` ends: `Created` is the path that calls
      `onReviewerCreated` and `onClose`, with the fate of the credentials
      email. */
  datatype CreateOutcome = CreateFailed(message: string) | Created(credentials: Delivery)

  class Dialog {
    const db: Backend
    var formData: ReviewerForm
    var selectedCountry: string
    var isLoading: bool

    constructor (db: Backend)
      ensures this.db == db && formData == EmptyForm && selectedCountry == DefaultCountry && !isLoading
    {
      this.db := db;
      formData := EmptyForm;
      selectedCountry := DefaultCountry;
      isLoading := false;
    }

    /** `handleSubmit`. A failed insert stops everything: no email, no
        reset, no callbacks. After a successful insert the credentials email
        is attempted, and whether or not it is delivered the form is reset
        and the callbacks run. `isLoading` ends false on every path. */
    method HandleSubmit(insert: Result<Inserted, string>, invoke: InvokeOutcome) returns (outcome: CreateOutcome)
      modifies this, db
      ensures !isLoading
      ensures db.submissions == old(db.submissions)
      ensures insert.Err? ==>
        outcome == CreateFailed(InsertErrorText(insert.error))
        && db.reviewers == old(db.reviewers) && db.invocations == old(db.invocations)
        && formData == old(formData) && selectedCountry == old(selectedCountry)
      ensures insert.Ok? ==>
        var mail := CredentialsMail(old(formData));
        db.reviewers == old(db.reviewers)[insert.value.id := NewReviewer(old(formData), old(selectedCountry), insert.value)]
        && db.invocations == old(db.invocations) + Queued(mail)
        && outcome == Created(Outcome(mail, invoke))
        && formData == EmptyForm && selectedCountry == DefaultCountry
    {
      isLoading := true;
      if insert.Err? {
        outcome := CreateFailed(InsertErrorText(insert.error));
        isLoading := false;
        return;
      }
      var row := NewReviewer(formData, selectedCountry, insert.value);
      db.reviewers := db.reviewers[insert.value.id := row];
      var r := SendEmail(db, CredentialsMail(formData), invoke);
      outcome := Created(DeliveryOf(r));
      formData := EmptyForm;
      selectedCountry := DefaultCountry;
      isLoading := false;
    }
  }
}
