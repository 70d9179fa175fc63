/** The HTML templates of src/utils/emailService.ts, each built as a block
    document, and the record of which template a mail uses. */
module Templates {
  import opened Wrappers
  import opened Text
  import opened Html
  import opened Records

  const ConferenceBanner := Banner("linear-gradient(135deg, #1e40af 0%, #1e3a8a 100%)", "ICAIEA 2026",
    "International Conference on Advances in Industrial Engineering Applications")

  const ContactLine := "Contact: +91 8939934561 | +91 8489224756"

  const CredentialsBanner := Banner("linear-gradient(135deg, #4f46e5 0%, #7c3aed 100%)", "Reviewer Account Created", "Your reviewer credentials")
  const CredentialsIntro := "Your reviewer account has been created successfully. Please use the credentials below to log in to the system."
  const CredentialsNotice := Notice("<strong>Important:</strong> Please change your password after your first login for security purposes.")
  const CredentialsFooter := Footer(["Welcome to the review panel!", "Best regards,<br>Conference Review Committee"])

  /** `createReviewerCredentialsEmail` */
  function ReviewerCredentialsEmail(reviewerName: string, username: string, password: string): seq<Block> {
    [ CredentialsBanner,
      Card("Hello " + reviewerName + ",", [CredentialsIntro]),
      Details("Login Credentials", [Field("Username", username, None), Field("Password", password, None)]),
      CredentialsNotice,
      CredentialsFooter ]
  }

  const ConfirmationParagraphs := ["Greetings from ICAIEA 2026!",
    "We are pleased to inform you that we have successfully received your abstract submission for the International Conference on Advances in Industrial Engineering Applications (ICAIEA 2026), themed \"Innovations & Sustainable Practices in Industrial Engineering.\""]
  const ConfirmationNext := Bullets("What's Next?",
    ["Your abstract is currently under review by our technical committee",
     "The review process typically takes up to 2 weeks",
     "You will receive further communication regarding the acceptance status via email",
     "Once accepted, you will be invited to submit the full paper for final review, presentation and publication"])
  const ConfirmationNotice := Notice("If you have any questions or require further assistance, please feel free to contact us at <strong>icaiea2026@gmail.com</strong>.")
  const ConfirmationFooter := Footer(["We thank you for your contribution and look forward to your active participation in ICAIEA 2026.",
    "Warm regards,", "<strong>Organizing Committee</strong>", "<strong>ICAIEA 2026</strong>",
    "<strong>Anna University</strong>", ContactLine])

  /** `createSubmissionConfirmationEmail` */
  function SubmissionConfirmationEmail(authorName: string, paperTitle: string, submissionId: string): seq<Block> {
    [ ConferenceBanner,
      Card("Dear " + authorName + ",", ConfirmationParagraphs),
      Details("Submission Details",
        [Field("Submission ID", submissionId, None), Field("Paper Title", paperTitle, None),
         Field("Status", "Under Review", Some("#f59e0b"))]),
      ConfirmationNext,
      ConfirmationNotice,
      ConfirmationFooter ]
  }

  /** The review deadline, in days since the epoch: two weeks after today. */
  function ReviewDeadline(today: int): int {
    today + 14
  }

  /** `createAssignmentEmail`; `today` is the current day and `formatDate`
      stands for `toLocaleDateString('en-IN', …)`. */
  function AssignmentEmail(reviewerName: string, paperTitle: string, authorName: string, submissionId: string,
                           today: int, formatDate: int -> string): seq<Block>
  {
    AssignmentBlocks(reviewerName, paperTitle, authorName, submissionId, formatDate(ReviewDeadline(today)))
  }

  const AssignmentIntro := "A paper has been assigned to you for review for the International Conference on Advances in Industrial Engineering Applications (ICAIEA 2026)."
  const AssignmentCall := Card("", ["Please log in to your reviewer dashboard to access the submission and begin your review.",
    "\U{1F449} Start Review / Access Dashboard"])
  const AssignmentNotice := Notice("For queries, contact us at <strong>icaiea2026@gmail.com</strong>.")
  const AssignmentFooter := Footer(["Thank you for your contribution.", "Best regards,", "<strong>ICAIEA 2026 Review Committee</strong>",
    "<strong>Anna University</strong>", ContactLine])

  /** The assignment email once the deadline has been formatted. */
  function AssignmentBlocks(reviewerName: string, paperTitle: string, authorName: string, submissionId: string,
                            deadline: string): seq<Block>
  {
    [ ConferenceBanner,
      Card("Dear " + reviewerName + ",", [AssignmentIntro]),
      Details("Details:",
        [Field("Author", authorName, None), Field("Submission ID", submissionId, None),
         Field("Paper Title", paperTitle, None), Field("Review Deadline", deadline, None)]),
      AssignmentCall,
      AssignmentNotice,
      AssignmentFooter ]
  }

  /** `#10b981` for selected, `#ef4444` for rejected, `#3b82f6` for anything else. */
  function StatusColor(status: string): string {
    if status == "selected" then "#10b981" else if status == "rejected" then "#ef4444" else "#3b82f6"
  }

  function UpperChar(c: char): char {
    if 'a' <= c <= 'z' then (c as int - 32) as char else c
  }

  /** `s.charAt(0).toUpperCase() + s.slice(1)` */
  function Capitalize(s: string): (r: string)
    ensures |r| == |s| && (s != [] ==> r[1..] == s[1..])
    ensures s != [] ==> r[0] == UpperChar(s[0])
  {
    if s == [] then [] else [UpperChar(s[0])] + s[1..]
  }

  /** Capitalizing loses nothing for a lower-case word: lower-casing the
      label gives back the word, so each label names its status. */
  lemma CapitalizeLowerRoundTrip(s: string)
    requires ToLower(s) == s
    ensures ToLower(Capitalize(s)) == s
  {
    if s != [] {
      var low := ToLower(Capitalize(s));
      assert LowerChar(s[0]) == s[0];
      assert low[0] == s[0];
      forall i | 1 <= i < |s| ensures low[i] == s[i] {
        assert LowerChar(s[i]) == s[i];
      }
    }
  }

  lemma StatusLabels()
    ensures Capitalize(StatusName(Pending)) == "Pending"
    ensures Capitalize(StatusName(Assigned)) == "Assigned"
    ensures Capitalize(StatusName(Selected)) == "Selected"
    ensures Capitalize(StatusName(Rejected)) == "Rejected"
  {
  }

  const StatusUpdateBanner := Banner("linear-gradient(135deg, #6366f1 0%, #8b5cf6 100%)", "Status Update", "Paper submission status has been updated")
  const StatusUpdateIntro := "The status of a paper submission has been updated in the system. Here are the details:"
  const StatusUpdateFooter := Footer(["Thank you for your contribution to the review process.", "Best regards,<br>Conference Review Committee"])

  /** `createStatusUpdateEmail` (to the reviewer). */
  function StatusUpdateEmail(reviewerName: string, paperTitle: string, newStatus: string, submissionId: string): seq<Block> {
    [ StatusUpdateBanner,
      Card("Hello " + reviewerName + ",", [StatusUpdateIntro]),
      Details("Update Details",
        [Field("Submission ID", submissionId, None), Field("Paper Title", paperTitle, None),
         Field("New Status", Capitalize(newStatus), Some(StatusColor(newStatus)))]),
      StatusUpdateFooter ]
  }

  /** The three branches of the author's copy. */
  datatype Verdict = Accepted | Declined | Other

  function VerdictOf(status: string): Verdict {
    if status == "selected" then Accepted else if status == "rejected" then Declined else Other
  }

  function HeaderGradient(v: Verdict): string {
    match v
    case Accepted => "linear-gradient(135deg, #10b981 0%, #059669 100%)"
    case Declined => "linear-gradient(135deg, #ef4444 0%, #dc2626 100%)"
    case Other => "linear-gradient(135deg, #3b82f6 0%, #2563eb 100%)"
  }

  const AcceptedIntro := "Congratulations! Your paper has been selected for the conference."
  const DeclinedIntro := "Thank you for your submission. After careful review, we regret to inform you that your paper was not selected for this conference."
  const OtherIntro := "Your paper submission status has been updated."

  function IntroCopy(v: Verdict): string {
    match v
    case Accepted => AcceptedIntro
    case Declined => DeclinedIntro
    case Other => OtherIntro
  }

  function NextHeading(v: Verdict): string {
    match v
    case Accepted => "Next Steps"
    case Declined => "Future Opportunities"
    case Other => "Information"
  }

  const AcceptedItems := ["You will receive further instructions about conference registration",
    "Please prepare your final presentation materials",
    "Watch for updates about the conference schedule",
    "Congratulations on your successful submission!"]
  const DeclinedItems := ["We encourage you to consider our feedback for future submissions",
    "Keep an eye out for future conference announcements",
    "Continue your excellent research work",
    "Thank you for your interest in our conference"]
  const OtherItems := ["Your submission is being processed",
    "You will receive updates as they become available",
    "Please keep your submission ID for reference"]

  function NextItems(v: Verdict): seq<string> {
    match v
    case Accepted => AcceptedItems
    case Declined => DeclinedItems
    case Other => OtherItems
  }

  function ClosingCopy(v: Verdict): string {
    if v == Accepted then "Congratulations once again, and we look forward to your participation!"
    else "Thank you for your submission and continued interest in our conference."
  }

  /** Banner, greeting and details box of the author's email. */
  function StudentHead(studentName: string, paperTitle: string, status: string, submissionId: string): (bs: seq<Block>)
    ensures |bs| == 3 && forall b :: b in bs ==> !b.Comments?
  {
    var v := VerdictOf(status);
    [ Banner(HeaderGradient(v), "Paper Review Update", "Your submission has been " + status),
      Card("Hello " + studentName + ",", [IntroCopy(v)]),
      Details("Submission Details",
        [Field("Submission ID", submissionId, None), Field("Paper Title", paperTitle, None),
         Field("Status", Capitalize(status), Some(StatusColor(status)))]) ]
  }

  /** The verdict-specific list and the closing of the author's email. */
  function StudentTail(v: Verdict): (bs: seq<Block>)
    ensures |bs| == 2 && forall b :: b in bs ==> !b.Comments?
  {
    [ Bullets(NextHeading(v), NextItems(v)),
      Footer([ClosingCopy(v), "Best regards,<br>Conference Review Committee"]) ]
  }

  /** `createStudentStatusUpdateEmail` (to the author); the comments block is
      there only for non-empty remarks. */
  function StudentStatusUpdateEmail(studentName: string, paperTitle: string, status: string, submissionId: string,
                                    remarks: string): seq<Block> {
    StudentHead(studentName, paperTitle, status, submissionId)
    + (if remarks != "" then [Comments(remarks)] else [])
    + StudentTail(VerdictOf(status))
  }

  predicate HasComments(bs: seq<Block>) {
    exists i :: 0 <= i < |bs| && bs[i].Comments?
  }

  /** The author's email has a "Reviewer Comments" block exactly when the
      remarks are a non-empty string, and that block quotes the remarks. */
  lemma StudentEmailComments(studentName: string, paperTitle: string, status: string, submissionId: string, remarks: string)
    ensures var bs := StudentStatusUpdateEmail(studentName, paperTitle, status, submissionId, remarks);
      (HasComments(bs) <==> remarks != "") && (remarks != "" ==> bs[3] == Comments(remarks))
  {
    var head := StudentHead(studentName, paperTitle, status, submissionId);
    var tail := StudentTail(VerdictOf(status));
    var bs := StudentStatusUpdateEmail(studentName, paperTitle, status, submissionId, remarks);
    if remarks != "" {
      assert bs[3] == Comments(remarks);
    } else {
      assert bs == head + tail;
      forall i | 0 <= i < |bs| ensures !bs[i].Comments? {
        if i < 3 { assert bs[i] in head; } else { assert bs[i] in tail; }
      }
    }
  }

  /** The rendered author email shows non-empty remarks verbatim. */
  lemma StudentEmailShowsRemarks(studentName: string, paperTitle: string, status: string, submissionId: string, remarks: string)
    requires remarks != ""
    ensures Includes(Render(StudentStatusUpdateEmail(studentName, paperTitle, status, submissionId, remarks)), remarks)
  {
    var bs := StudentStatusUpdateEmail(studentName, paperTitle, status, submissionId, remarks);
    StudentEmailComments(studentName, paperTitle, status, submissionId, remarks);
    RenderShows(bs, 3);
    CommentsShowText(remarks);
    IncludesTransitive(Render(bs), RenderBlock(Comments(remarks)), remarks);
  }

  lemma CommentsShowText(text: string)
    ensures Includes(RenderBlock(Comments(text)), text)
  {
    IncludesMiddle(CommentsOpen, text, "</p></div></div>");
  }

  /** The three verdicts open with pairwise different paragraphs. */
  lemma IntroCopyInjective(v: Verdict, w: Verdict)
    requires v != w
    ensures IntroCopy(v) != IntroCopy(w)
  {
    assert |AcceptedIntro| == 65 && |DeclinedIntro| == 130 && |OtherIntro| == 46;
  }

  /** The three verdicts colour the banner with different gradients: the
      first stop is green, red or blue. */
  lemma HeaderGradientInjective(v: Verdict, w: Verdict)
    requires v != w
    ensures HeaderGradient(v) != HeaderGradient(w)
  {
    assert HeaderGradient(Accepted)[25] == '1' && HeaderGradient(Declined)[25] == 'e' && HeaderGradient(Other)[25] == '3';
  }

  /** The author's email opens with the verdict's banner and greeting card. */
  lemma StudentEmailOpening(studentName: string, paperTitle: string, status: string, submissionId: string,
                            remarks: string)
    ensures var bs := StudentStatusUpdateEmail(studentName, paperTitle, status, submissionId, remarks);
      bs[0].Banner? && bs[0].background == HeaderGradient(VerdictOf(status))
      && bs[1] == Card("Hello " + studentName + ",", [IntroCopy(VerdictOf(status))])
  {
    var head := StudentHead(studentName, paperTitle, status, submissionId);
    var bs := StudentStatusUpdateEmail(studentName, paperTitle, status, submissionId, remarks);
    assert bs[0] == head[0] && bs[1] == head[1];
  }

  /** What the author reads follows the status: the congratulating banner
      and paragraph exactly for "selected", the regretting ones exactly for
      "rejected", the neutral ones for every other status. */
  lemma StudentCopyFollowsStatus(studentName: string, paperTitle: string, status: string, submissionId: string,
                                 remarks: string)
    ensures var bs := StudentStatusUpdateEmail(studentName, paperTitle, status, submissionId, remarks);
      (bs[1] == Card("Hello " + studentName + ",", [IntroCopy(Accepted)]) <==> status == "selected")
      && (bs[1] == Card("Hello " + studentName + ",", [IntroCopy(Declined)]) <==> status == "rejected")
      && (bs[1] == Card("Hello " + studentName + ",", [IntroCopy(Other)]) <==>
            status != "selected" && status != "rejected")
      && (bs[0].background == HeaderGradient(Accepted) <==> status == "selected")
      && (bs[0].background == HeaderGradient(Declined) <==> status == "rejected")
  {
    StudentEmailOpening(studentName, paperTitle, status, submissionId, remarks);
    var v := VerdictOf(status);
    forall w | w != v ensures IntroCopy(w) != IntroCopy(v) && HeaderGradient(w) != HeaderGradient(v) {
      IntroCopyInjective(w, v);
      HeaderGradientInjective(w, v);
    }
  }

  /** The status colour takes the same three-way split as the author's
      copy: green for selected, red for rejected, blue for anything else. */
  lemma StatusColorFollowsVerdict(status: string)
    ensures StatusColor(status) == "#10b981" <==> VerdictOf(status) == Accepted
    ensures StatusColor(status) == "#ef4444" <==> VerdictOf(status) == Declined
    ensures StatusColor(status) == "#3b82f6" <==> VerdictOf(status) == Other
  {
  }

  /** The three verdicts give pairwise different section headings ("Next
      Steps", "Future Opportunities", "Information"). */
  lemma StudentCopyDistinct(v: Verdict, w: Verdict)
    requires v != w
    ensures NextHeading(v) != NextHeading(w)
  {
    assert |NextHeading(Accepted)| == 10 && |NextHeading(Declined)| == 20 && |NextHeading(Other)| == 11;
  }

  /** The reviewer's deadline line shows the date two weeks after today. */
  lemma AssignmentDeadline(reviewerName: string, paperTitle: string, authorName: string, submissionId: string,
                           today: int, formatDate: int -> string)
    ensures var bs := AssignmentEmail(reviewerName, paperTitle, authorName, submissionId, today, formatDate);
      bs[2].Details? && Field("Review Deadline", formatDate(today + 14), None) in bs[2].fields
  {
    var bs := AssignmentEmail(reviewerName, paperTitle, authorName, submissionId, today, formatDate);
    assert bs[2].fields[3] == Field("Review Deadline", formatDate(today + 14), None);
  }

  /** Which template a mail is rendered from, with its arguments. */
  datatype Template =
    | CredentialsTemplate(reviewerName: string, username: string, password: string)
    | ConfirmationTemplate(authorName: string, paperTitle: string, submissionId: string)
    | AssignmentTemplate(reviewerName: string, paperTitle: string, authorName: string, submissionId: string, deadline: string)
    | StatusUpdateTemplate(reviewerName: string, paperTitle: string, newStatus: string, submissionId: string)
    | StudentStatusTemplate(studentName: string, paperTitle: string, status: string, submissionId: string, remarks: string)

  function Blocks(t: Template): seq<Block> {
    match t
    case CredentialsTemplate(n, u, p) => ReviewerCredentialsEmail(n, u, p)
    case ConfirmationTemplate(a, p, i) => SubmissionConfirmationEmail(a, p, i)
    case AssignmentTemplate(r, p, a, i, deadline) => AssignmentBlocks(r, p, a, i, deadline)
    case StatusUpdateTemplate(r, p, s, i) => StatusUpdateEmail(r, p, s, i)
    case StudentStatusTemplate(n, p, s, i, remarks) => StudentStatusUpdateEmail(n, p, s, i, remarks)
  }

  /** The credentials email shows the username and the password verbatim. */
  lemma CredentialsShowLogin(t: Template)
    requires t.CredentialsTemplate?
    ensures Includes(Render(Blocks(t)), t.username)
    ensures Includes(Render(Blocks(t)), t.password)
  {
    var bs := ReviewerCredentialsEmail(t.reviewerName, t.username, t.password);
    RenderShowsFieldValue(bs, 2, 0);
    RenderShowsFieldValue(bs, 2, 1);
  }
}
