/** The client-side mail layer (src/utils/emailService.ts): the exclusion
    policy, `sendEmail`, `sendStudentStatusUpdateEmail` and the HTML
    templates. A template is built as a list of blocks and rendered to one
    HTML string; the inline styles of the original markup are abbreviated
    to the colours that carry meaning. */
module EmailService {
  import opened Wrappers
  import opened Text
  import opened Records
  import opened Store
  import opened Templates

  /** Addresses that never receive mail. */
  const ExcludedEmails: seq<string> := ["admin@conference.com"]

  /** `shouldExcludeFromAllEmails`: the lower-cased address is on the list. */
  predicate ShouldExcludeFromAllEmails(email: string) {
    ToLower(email) in ExcludedEmails
  }

  /** Lower-casing turns `c` into `a`, a character that is not an upper-case
      letter, exactly when `c` is `a` or is `a`'s upper-case form. */
  lemma LowerCharTo(c: char, a: char)
    requires !('A' <= a <= 'Z')
    ensures LowerChar(c) == a <==> c == a || ('a' <= a <= 'z' && c as int == a as int - 32)
  {
  }

  /** An address is excluded exactly when it spells "admin@conference.com"
      with any of its letters in upper case, and nothing else. */
  lemma ExcludedAddressSpelling(email: string)
    ensures var a := ExcludedEmails[0];
      ShouldExcludeFromAllEmails(email) <==>
        |email| == |a| && forall i | 0 <= i < |a| :: email[i] == a[i] || ('a' <= a[i] <= 'z' && email[i] as int == a[i] as int - 32)
  {
    var a := ExcludedEmails[0];
    assert ShouldExcludeFromAllEmails(email) <==> ToLower(email) == a;
    assert forall i | 0 <= i < |a| :: !('A' <= a[i] <= 'Z');
    if |email| == |a| {
      forall i | 0 <= i < |a|
        ensures ToLower(email)[i] == a[i] <==> email[i] == a[i] || ('a' <= a[i] <= 'z' && email[i] as int == a[i] as int - 32)
      {
        LowerCharTo(email[i], a[i]);
      }
      assert ToLower(email) == a <==> forall i | 0 <= i < |a| :: ToLower(email)[i] == a[i];
    }
  }

  lemma ExcludedSpellings()
    ensures ShouldExcludeFromAllEmails("Admin@Conference.COM")
    ensures !ShouldExcludeFromAllEmails("admin@conference.co")
    ensures !ShouldExcludeFromAllEmails(" admin@conference.com")
  {
    assert ToLower("Admin@Conference.COM") == "admin@conference.com";
    assert ToLower("admin@conference.co") == "admin@conference.co";
    assert |ToLower(" admin@conference.com")| == 21;
  }

  /** What `sendEmail` resolves with: the edge function's JSON or the
      synthetic result for an excluded address. */
  datatype SendResponse = SendResponse(success: bool, message: string, messageId: Option<string>)

  /** What `supabase.functions.invoke('send-gmail', …)` reports. */
  datatype InvokeOutcome = Returned(data: SendResponse) | InvokeError(message: string)

  function SkipMessage(to: string): string {
    "Email sending skipped for excluded address: " + to
  }

  /** `sendEmail`: an excluded address short-circuits to success without
      invoking the edge function; otherwise the function is invoked once, an
      invoke error becomes a thrown error (Err) and anything else is returned
      as it came. */
  method SendEmail(db: Backend, email: EmailData, invoke: InvokeOutcome) returns (r: Result<SendResponse, string>)
    modifies db
    ensures db.submissions == old(db.submissions) && db.reviewers == old(db.reviewers)
    ensures ShouldExcludeFromAllEmails(email.to) ==>
      db.invocations == old(db.invocations) && r == Ok(SendResponse(true, SkipMessage(email.to), None))
    ensures !ShouldExcludeFromAllEmails(email.to) ==> db.invocations == old(db.invocations) + [email]
    ensures !ShouldExcludeFromAllEmails(email.to) && invoke.InvokeError? ==> r == Err("Email sending failed: " + invoke.message)
    ensures !ShouldExcludeFromAllEmails(email.to) && invoke.Returned? ==> r == Ok(invoke.data)
  {
    if ShouldExcludeFromAllEmails(email.to) {
      return Ok(SendResponse(true, SkipMessage(email.to), None));
    }
    db.invocations := db.invocations + [email];
    match invoke
    case InvokeError(message) =>
      r := Err("Email sending failed: " + message);
    case Returned(data) =>
      r := Ok(data);
  }

  /** `sendStudentStatusUpdateEmail`: excluded addresses are skipped before
      rendering; otherwise the author email is sent with the subject
      "Paper Review Update: {id} - {title}" and a send error is rethrown. */
  method SendStudentStatusUpdateEmail(db: Backend, studentEmail: string, studentName: string, paperTitle: string,
                                      status: string, submissionId: string, remarks: string, invoke: InvokeOutcome)
    returns (r: Result<SendResponse, string>)
    modifies db
    ensures db.submissions == old(db.submissions) && db.reviewers == old(db.reviewers)
    ensures ShouldExcludeFromAllEmails(studentEmail) ==>
      db.invocations == old(db.invocations) && r == Ok(SendResponse(true, SkipMessage(studentEmail), None))
    ensures !ShouldExcludeFromAllEmails(studentEmail) ==>
      db.invocations == old(db.invocations) + [StudentStatusMail(studentEmail, studentName, paperTitle, status, submissionId, remarks)]
    ensures !ShouldExcludeFromAllEmails(studentEmail) ==>
      (r.Err? <==> invoke.InvokeError?) &&
      (r.Ok? ==> r.value == SendResponse(true, "Email sent successfully to " + studentEmail, None))
  {
    if ShouldExcludeFromAllEmails(studentEmail) {
      return Ok(SendResponse(true, SkipMessage(studentEmail), None));
    }
    var sent := SendEmail(db, StudentStatusMail(studentEmail, studentName, paperTitle, status, submissionId, remarks), invoke);
    match sent
    case Err(e) =>
      r := Err(e);
    case Ok(_) =>
      r := Ok(SendResponse(true, "Email sent successfully to " + studentEmail, None));
  }

  function StudentStatusMail(studentEmail: string, studentName: string, paperTitle: string, status: string,
                             submissionId: string, remarks: string): EmailData {
    EmailData(studentEmail, "Paper Review Update: " + submissionId + " - " + paperTitle,
              StudentStatusTemplate(studentName, paperTitle, status, submissionId, remarks))
  }

  /** How a handler saw one notification. */
  datatype Delivery = NotAttempted | Sent | Failed

  function DeliveryOf<T>(r: Result<T, string>): Delivery {
    if r.Ok? then Sent else Failed
  }

  /** What one `sendEmail` call adds to the invocation log. */
  function Queued(mail: EmailData): (r: seq<EmailData>)
    ensures r == [] <==> ShouldExcludeFromAllEmails(mail.to)
  {
    if ShouldExcludeFromAllEmails(mail.to) then [] else [mail]
  }

  function QueuedAll(mail: Option<EmailData>): seq<EmailData> {
    if mail.Some? then Queued(mail.value) else []
  }

  /** How a caught send of `mail` ends: only an invoke error on an address
      that is not excluded is a failure. */
  function Outcome(mail: EmailData, invoke: InvokeOutcome): (d: Delivery)
    ensures d == Failed <==> !ShouldExcludeFromAllEmails(mail.to) && invoke.InvokeError?
    ensures d != NotAttempted
  {
    if !ShouldExcludeFromAllEmails(mail.to) && invoke.InvokeError? then Failed else Sent
  }

  function OutcomeAll(mail: Option<EmailData>, invoke: InvokeOutcome): Delivery {
    if mail.Some? then Outcome(mail.value, invoke) else NotAttempted
  }
}
