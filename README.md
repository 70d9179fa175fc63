# Conference review workflow — a Dafny model

This project models the logic of a conference paper-review site. The site has
a React front end and a Supabase edge function, `send-gmail`. The model
covers these parts:

- **Public submission form** (`src/pages/Index.tsx`). Validation of the form,
  the `.doc`/`.docx` document picker, and the submit sequence: upload, then
  insert a "pending" row, then the confirmation email.
- **Administrator's dashboard** (`src/pages/AdminDashboard.tsx`):
  - assignment of a reviewer;
  - the plain status override and the decision with remarks;
  - switching reviewers on and off;
  - the type and view filters, and the counters.
- **Reviewer's dashboard** (`src/pages/ReviewerDashboard.tsx`):
  - the role gate and the load of the reviewer's own rows;
  - the decision handler and the view filter.
- **Decision dialog** (`src/components/ReviewerStatusUpdate.tsx`): the remarks
  field, how the confirm button is gated, and its styling.
- **Mail layer** (`src/utils/emailService.ts`):
  - the exclusion policy;
  - `sendEmail` and `sendStudentStatusUpdateEmail`;
  - the HTML templates, built as lists of blocks and rendered to one string.
- **Edge function** (`supabase/functions/send-gmail/index.ts`):
  - the handler and the classification of the token reply;
  - the RFC 2822 raw message with its MIME multipart framing (RFC 2046,
    section 5.1.1);
  - the encoder: UTF-8 (RFC 3629) followed by base64url (RFC 4648,
    section 5), with the padding removed.
- **Search panel** (`src/components/SubmissionSearchFilter.tsx`), **reviewer
  creation** (`src/components/CreateReviewerDialog.tsx`), **login page**
  (`src/pages/Login.tsx`) and **document preview**
  (`src/components/DocumentViewer.tsx`).

The database is a `Store.Backend` object. It holds two tables, kept as maps
from row id to row, and a log of the edge-function invocations.

Each handler that writes is a method on a class holding the page's state. The
outcomes of the outside world are inputs to the method:

- whether a write succeeded;
- what each invoke of the edge function reported;
- what the upload server, the token endpoint and the Gmail endpoint answered;
- the current time, the formatted date and the random boundary suffix.

Pure computations are functions. The main ones have lemmas relating them to a
reference definition, an inverse or an invariant. The exceptions are small
lookups and case splits: `EmailService.Queued`, `EmailService.Outcome`,
`SendGmail.GetOAuth2AccessToken`, `SendGmail.Sender`, `SendGmail.SendOutcome`,
`ReviewerDashboard.StoredRemarks` and `Login.HomeOf`. Each is stated through
the operation that uses it. The type-count filters of the dashboards are the
other exception, listed under "## Left out".

One module per source concern:

- `records.dfy`: rows, statuses and the field updates.
- `store.dfy`: the backend.
- `text.dfy`: JavaScript `trim`, `toLowerCase`, `includes` and `endsWith`.
- `seqs.dfy`: `filter` and `find`.
- `html.dfy` and `templates.dfy`: the email markup.
- `email_service.dfy`.
- `utf8.dfy`, `base64url.dfy` and `send_gmail.dfy`: the edge function.
- `form_validation.dfy` and `submission_form.dfy`: the public form.
- `admin_dashboard.dfy`, `reviewer_dashboard.dfy` and
  `reviewer_status_update.dfy`.
- `search_filter.dfy`, `create_reviewer.dfy`, `login.dfy` and
  `document_viewer.dfy`.

## Model

| member | source | states |
|---|---|---|
| Records.StatusNameParse | src/types/submission.ts:22 | the four stored status names and the parser are inverse to each other |
| Records.WithAssignment | src/pages/AdminDashboard.tsx:169-176 | the assignment writes `assigned_to`, `status := assigned` and `updated_at`; every other column, `remarks` included, is unchanged |
| Records.WithStatus | src/pages/AdminDashboard.tsx:252-258 | the override writes only `status` and `updated_at`; `assigned_to` and `remarks` are unchanged |
| Records.WithDecision | src/pages/AdminDashboard.tsx:307-314 | a decision writes `status`, `remarks` and `updated_at`; the reviewer stays |
| Records.UpdateWhere | src/pages/AdminDashboard.tsx:252-258 | `.update(..).eq('id', id)` patches the row with that id if there is one; no other row changes and no row is added |
| Records.SubmissionById | src/pages/AdminDashboard.tsx:150 | `find` by id returns a row of the snapshot with that id, and returns nothing only when no row has it |
| Records.ReviewerById | src/pages/AdminDashboard.tsx:151 | the same for the reviewer snapshot |
| Text.TrimStartSpec | src/pages/Index.tsx:363-380 | `trim` removes exactly the leading white space |
| Text.TrimEndSpec | src/pages/Index.tsx:363-380 | `trim` removes exactly the trailing white space |
| Text.BlankIffAllSpace | src/pages/Index.tsx:363-380 | `!s.trim()` holds exactly when every character of `s` is white space |
| Text.TrimmedHasNoOuterSpace | src/components/SubmissionSearchFilter.tsx:39 | a trimmed non-empty string starts and ends with a non-space character |
| Text.ToLowerIdempotent | src/components/SubmissionSearchFilter.tsx:40-44 | lower-casing twice is lower-casing once |
| Html.RenderShows | src/utils/emailService.ts:80-113 | every block of a template appears in the rendered HTML |
| Html.DetailsShowValue | src/utils/emailService.ts:93-100 | a details box shows each field's value verbatim |
| Html.RenderShowsFieldValue | src/utils/emailService.ts:93-100 | the rendered email shows every field value of its details boxes |
| Templates.CapitalizeLowerRoundTrip | src/utils/emailService.ts:262 | the label `charAt(0).toUpperCase() + slice(1)` of a lower-case word lower-cases back to that word, so the label names its status |
| Templates.StatusLabels | src/utils/emailService.ts:224-225 | the four statuses are labelled "Pending", "Assigned", "Selected" and "Rejected" |
| Templates.StudentEmailComments | src/utils/emailService.ts:296-303 | the author email has a "Reviewer Comments" block exactly when the remarks are non-empty, and that block quotes them |
| Templates.StudentEmailShowsRemarks | src/utils/emailService.ts:296-303 | non-empty remarks appear verbatim in the rendered author email |
| Templates.StatusColorFollowsVerdict | src/utils/emailService.ts:259-261 | the status colour is green exactly for "selected", red exactly for "rejected" and blue otherwise, the same split as the copy |
| Templates.StudentCopyFollowsStatus | src/utils/emailService.ts:259-284 | the author's email opens with the congratulating banner gradient and paragraph exactly when the status is "selected", the regretting ones exactly when it is "rejected", and the neutral paragraph for every other status; the three paragraphs and the three gradients are pairwise different |
| Templates.StudentCopyDistinct | src/utils/emailService.ts:306-324 | the three branches have pairwise different section headings |
| Templates.AssignmentDeadline | src/utils/emailService.ts:166-172 | the assignment email's deadline line shows the date 14 days after today |
| Templates.CredentialsShowLogin | src/utils/emailService.ts:80-113 | the credentials email shows the username and the password verbatim |
| EmailService.ExcludedAddressSpelling | src/utils/emailService.ts:10-13 | an address is excluded exactly when it has the 20 characters of "admin@conference.com", each either that character or, for a letter, its upper-case form; a character-by-character statement that does not use the lower-casing function |
| EmailService.SendEmail | src/utils/emailService.ts:15-42 | an excluded address returns the skip message without invoking the edge function; otherwise one invocation is logged, an invoke error becomes an error and any other reply is returned as it came |
| EmailService.SendStudentStatusUpdateEmail | src/utils/emailService.ts:343-364 | excluded addresses are skipped; otherwise the author mail is queued with subject "Paper Review Update: {id} - {title}", a send error is rethrown, and success returns "Email sent successfully to …" |
| Utf8.Encode | supabase/functions/send-gmail/index.ts:143-144 | UTF-8 takes one to four bytes per character |
| Utf8.DecodeEncode | supabase/functions/send-gmail/index.ts:143-144 | decoding the UTF-8 bytes of a string gives back the string |
| Utf8.EncodeAppend | supabase/functions/send-gmail/index.ts:143-144 | the encoding of a concatenation is the concatenation of the encodings |
| Utf8.EncodeAscii | supabase/functions/send-gmail/index.ts:143-144 | ASCII text encodes to one byte per character, each byte equal to the character's code |
| Base64Url.Sextets | supabase/functions/send-gmail/index.ts:147 | `btoa` produces 4 sextets per 3 bytes plus 0, 2 or 3 for the tail, each below 64 |
| Base64Url.StripTrailingEquals | supabase/functions/send-gmail/index.ts:150 | `/=+$/` removes exactly the run of trailing '=' |
| Base64Url.ReplaceAll | supabase/functions/send-gmail/index.ts:150 | a global replace changes every occurrence of one character and nothing else |
| Base64Url.EncodeBytesIsUrlEncode | supabase/functions/send-gmail/index.ts:147-150 | `btoa`, then the two replacements, then the padding strip, equals a direct base64url encoding without padding |
| Base64Url.EncodeAlphabet | supabase/functions/send-gmail/index.ts:141-151 | the output uses only A-Z, a-z, 0-9, '-' and '_' |
| Base64Url.EncodeLength | supabase/functions/send-gmail/index.ts:143-150 | for n UTF-8 bytes the output length is 4⌊n/3⌋ plus 0, 2 or 3 |
| Base64Url.RegroupSextets | supabase/functions/send-gmail/index.ts:147 | regrouping the sextets gives back the bytes |
| Base64Url.EncodeRoundTrip | supabase/functions/send-gmail/index.ts:140-151 | base64url-decoding the output and then UTF-8-decoding it gives back the input string |
| SendGmail.JoinSplit | supabase/functions/send-gmail/index.ts:174 | `join('\r\n')` splits at any line into CRLF-terminated lines followed by the join of the rest |
| SendGmail.RawMessageShape | supabase/functions/send-gmail/index.ts:158-174 | the raw message is the ten header and part-header lines, each ending in CRLF, then the html as given, a blank line and `--boundary--` |
| SendGmail.Handle | supabase/functions/send-gmail/index.ts:16-104 | OPTIONS gets an empty CORS reply and nothing else happens. An unreadable body is a caught 500. Missing credentials give a 500 with no token request. The token is requested first. Only a 2xx token reply that carries a non-empty token leads to the send call; otherwise the reply is the 500 "Failed to obtain OAuth2 access token". The send carries the encoded message with From set to `from`, or GMAIL_USER when `from` is empty or absent. A failed send becomes a 500 carrying the send error. A 200 is returned only after a 2xx send reply, with `messageId` set to the reply's id |
| SendGmail.SentRawDecodes | supabase/functions/send-gmail/index.ts:178-179 | what Gmail receives decodes back to the assembled raw message |
| FormValidation.FirstAt | src/pages/Index.tsx:385 | the first '@' of the address, or none |
| FormValidation.EmailPatternIff | src/pages/Index.tsx:385 | `IsValidEmail` agrees with `^[^\s@]+@[^\s@]+\.[^\s@]+$` read as a regular expression, in both directions |
| FormValidation.ValidEmailMatches | src/pages/Index.tsx:385 | an address `IsValidEmail` accepts matches the pattern |
| FormValidation.MatchingEmailIsValid | src/pages/Index.tsx:385 | an address matching the pattern is accepted by `IsValidEmail` |
| FormValidation.BlankEmailIsInvalid | src/pages/Index.tsx:367-387 | a non-empty all-space email fails the pattern, so its message is "Please enter a valid email address" |
| FormValidation.EmailError | src/pages/Index.tsx:367-387 | an empty email is "required"; a non-empty one failing the pattern is "invalid" |
| FormValidation.RecordRequiredAt | src/pages/Index.tsx:360-383 | filling the record check by check keeps the old entries and adds exactly one "required" entry per failed check |
| FormErrors.RequiredCheckOf | src/pages/Index.tsx:362-383 | a required check for a field fails exactly when that field's own test fails (a blank email counts as missing) |
| FormErrors.ErrorAt | src/pages/Index.tsx:359-391 | the error record has an entry for a field exactly when that field has a problem, and the entry is that problem |
| FormErrors.CompleteIffNoProblem | src/pages/Index.tsx:359-391 | the form is complete exactly when no field has a problem |
| FormErrors.ErrorsEmptyIffComplete | src/pages/Index.tsx:389-390 | `validateForm` returns true exactly when the form is complete |
| FormErrors.EmailMessage | src/pages/Index.tsx:367-387 | the email field has a problem exactly when the address fails the pattern, and the message distinguishes empty from invalid |
| SubmissionForm.NewRow | src/pages/Index.tsx:289-313 | the inserted row is "pending" with `journal_publication` "no", no reviewer and no remarks, and carries the form's fields and the uploaded document |
| SubmissionForm.DisplayId | src/pages/Index.tsx:319 | the displayed id is never empty: the submission id when it is non-empty, otherwise "Unknown" |
| SubmissionForm.Form.ValidateForm | src/pages/Index.tsx:359-391 | stores the error record, and succeeds exactly when the record is empty, which is exactly when the form is complete; success implies a document is chosen |
| SubmissionForm.Form.HandleFileSelect | src/pages/Index.tsx:157-181 | a file is kept exactly when its lower-cased name ends in ".doc" or ".docx"; on rejection the input is cleared and the previous choice stays |
| SubmissionForm.Form.RemoveFile | src/pages/Index.tsx:183-188 | clears the chosen file and the input |
| SubmissionForm.Form.SubmitDocument | src/pages/Index.tsx:211-347 | upload, then insert, then confirmation email. An upload or insert failure writes nothing and sends nothing. A failed email still ends in success and hides the form. The form data, the chosen file and the file input are unchanged |
| SubmissionForm.Form.HandleSubmit | src/pages/Index.tsx:190-357 | stores the validation record; submission stops as invalid exactly when the form is incomplete, or as unauthenticated before any upload or insert. The file input is untouched, and `isSubmitting` is false on every path |
| AdminDashboard.AssignedReviewer | src/pages/AdminDashboard.tsx:263-267 | the reviewer notified is the one the snapshot row names, if the snapshot has them |
| AdminDashboard.ReviewerNotice | src/pages/AdminDashboard.tsx:263-287 | a reviewer email exists exactly when there is an assigned reviewer, and goes to that reviewer |
| AdminDashboard.AuthorNotice | src/pages/AdminDashboard.tsx:346-360 | an author email exists exactly when the snapshot has the row, and goes to its author |
| AdminDashboard.NotifyDecision | src/pages/AdminDashboard.tsx:319-371 | the reviewer email and then the author email are each attempted in their own handler; the first one's failure does not stop the second |
| AdminDashboard.Dashboard.HandleAssignReviewerRequest | src/pages/AdminDashboard.tsx:149-163 | the confirmation opens only when the snapshot has both the submission and the reviewer |
| AdminDashboard.Dashboard.ConfirmAssignReviewer | src/pages/AdminDashboard.tsx:165-224 | a failed write sends nothing and leaves the dialog open with `isLoading` false. After a successful write exactly the assignment fields change on that row, and the email goes out only when both snapshot rows exist. An email failure still closes the dialog |
| AdminDashboard.Dashboard.HandleStatusUpdateRequest | src/pages/AdminDashboard.tsx:226-248 | "selected" and "rejected" open the remarks dialog, any other status opens the plain confirmation, and an unknown id opens nothing |
| AdminDashboard.Dashboard.ConfirmStatusUpdate | src/pages/AdminDashboard.tsx:250-303 | the override writes only status and time on that row and notifies only the assigned reviewer, never the author; a failed write changes nothing |
| AdminDashboard.Dashboard.ConfirmReviewerStatusUpdate | src/pages/AdminDashboard.tsx:305-382 | a decision writes status, remarks and time, then attempts the reviewer and author emails independently; a failed write sends nothing |
| AdminDashboard.Dashboard.ToggleReviewerStatus | src/pages/AdminDashboard.tsx:384-405 | writes `is_active := !currentStatus` on that reviewer only and touches no submission |
| AdminDashboard.TypeStageIsFilter | src/pages/AdminDashboard.tsx:436-438 | the type stage is a filter by the type condition ("all" keeps every row) |
| AdminDashboard.ViewStageIsFilter | src/pages/AdminDashboard.tsx:440-453 | the view stage is a filter by the view condition: "unassigned" is a null reviewer or pending, the status views compare the status, and other views keep all rows |
| AdminDashboard.ViewFilterIsConjunction | src/pages/AdminDashboard.tsx:432-454 | the two stages keep exactly the rows meeting both conditions, as an order-preserving subsequence |
| AdminDashboard.StatusCountsAddUp | src/pages/AdminDashboard.tsx:461-464 | the four status counts add up to the number of submissions |
| AdminDashboard.CountMatchesView | src/pages/AdminDashboard.tsx:432-464 | a status card counts all submissions, while that status's view filters the search output by type and view; so the view lists at most the card's count, and exactly that many when no search criterion is active and the type selector is on "all" |
| AdminDashboard.PendingCardWithinUnassigned | src/pages/AdminDashboard.tsx:441-443 | every row counted on the pending card is in the "unassigned" view |
| AdminDashboard.AssignableReviewers | src/pages/AdminDashboard.tsx:743 | the selector offers exactly the active reviewers |
| AdminDashboard.AssignedCountBound | src/pages/AdminDashboard.tsx:595 | a reviewer's assigned count never exceeds the rows that have a reviewer |
| ReviewerDashboard.AssignedTo | src/pages/ReviewerDashboard.tsx:68-77 | the load returns exactly the rows assigned to the reviewer |
| ReviewerDashboard.Dashboard.Mount | src/pages/ReviewerDashboard.tsx:53-85 | anyone but a reviewer is redirected and nothing loads; a reviewer loads only their own rows |
| ReviewerDashboard.Dashboard.HandleStatusChange | src/pages/ReviewerDashboard.tsx:92-98 | opens the dialog with a status from the selector at lines 289-291, which is never "pending" |
| ReviewerDashboard.Dashboard.ConfirmStatusUpdate | src/pages/ReviewerDashboard.tsx:100-149 | does nothing without a selected submission. A failed write changes nothing. Otherwise it writes status, remarks (empty as null) and time on that row, then attempts only the author email, swallows its failure and resets the dialog |
| ReviewerDashboard.ViewFilterIsConjunction | src/pages/ReviewerDashboard.tsx:176-195 | the reviewer's filter keeps exactly the rows of the type and view, in order, and agrees with the administrator's filter outside "unassigned" |
| ReviewerStatusUpdate.ConfirmDisabledIff | src/components/ReviewerStatusUpdate.tsx:96-111 | confirm is disabled exactly for a rejection whose remarks are all white space, and the remarks are then marked required |
| ReviewerStatusUpdate.StylingFollowsVerdict | src/components/ReviewerStatusUpdate.tsx:35-120 | the icon, colour, button class and label follow the same three-way split as the author's email |
| ReviewerStatusUpdate.Dialog.ReceiveStatus | src/pages/ReviewerDashboard.tsx:439-447 | the always-mounted dialog takes a new `newStatus` from its parent and keeps the remarks typed so far |
| ReviewerStatusUpdate.Dialog.SetRemarks | src/components/ReviewerStatusUpdate.tsx:94 | the textarea's change sets the remarks |
| ReviewerStatusUpdate.Dialog.HandleConfirm | src/components/ReviewerStatusUpdate.tsx:30-33 | hands over the remarks untrimmed, then clears them |
| ReviewerStatusUpdate.Dialog.ClickConfirm | src/components/ReviewerStatusUpdate.tsx:109-113 | a disabled button does nothing; so a rejection never reaches the caller with blank remarks |
| SearchFilter.With | src/components/SubmissionSearchFilter.tsx:30-31 | only the named criterion changes |
| SearchFilter.Narrow | src/components/SubmissionSearchFilter.tsx:36-63 | each step of `applyFilters` moves from the first n criteria to the first n + 1; a blank criterion is skipped |
| SearchFilter.KeptEnds | src/components/SubmissionSearchFilter.tsx:36-65 | no step keeps every row, and all four steps give the listed rows |
| SearchFilter.ApplyFilters | src/components/SubmissionSearchFilter.tsx:36-66 | the result is exactly the rows meeting every non-blank criterion, as an order-preserving subsequence |
| SearchFilter.HasActiveFilters | src/components/SubmissionSearchFilter.tsx:74 | holds exactly when some criterion is non-blank |
| SearchFilter.InactiveShowsAll | src/components/SubmissionSearchFilter.tsx:68-74 | with no active criterion every row is listed |
| SearchFilter.QueriesIgnoreCase | src/components/SubmissionSearchFilter.tsx:39-63 | the name, id and email criteria do not depend on the case of the query |
| SearchFilter.MissingIdExcluded | src/components/SubmissionSearchFilter.tsx:46-50 | with an active id criterion, rows without a submission id are never listed |
| SearchFilter.SearchPanel.HandleFilterChange | src/components/SubmissionSearchFilter.tsx:30-34 | changes one criterion and reports the rows all criteria now select |
| SearchFilter.SearchPanel.ClearFilters | src/components/SubmissionSearchFilter.tsx:68-72 | all criteria become "" and the whole list is reported |
| CreateReviewer.NewReviewer | src/components/CreateReviewerDialog.tsx:46-54 | the stored phone is the country code followed by the number, and both parts can be read back from it |
| CreateReviewer.InsertErrorText | src/components/CreateReviewerDialog.tsx:95-100 | the error toast shows the error's message, or "Failed to create reviewer" when it is empty |
| CreateReviewer.CredentialsMailShowsLogin | src/components/CreateReviewerDialog.tsx:59-70 | the credentials email goes to the new reviewer and shows the username and password |
| CreateReviewer.Dialog.HandleSubmit | src/components/CreateReviewerDialog.tsx:41-104 | a failed insert sends nothing, keeps the form and skips the callbacks. After a successful insert the email is attempted, and whatever its fate the form is reset with country "+91" and the callbacks run. `isLoading` ends false |
| Login.LocalMatch | src/pages/Login.tsx:44-47 | `users.find`: the first stored user with exactly the entered credentials, and none only when no stored user has them |
| Login.MatchingReviewers | src/pages/Login.tsx:63-67 | the query's rows are exactly the table rows whose username and password are the entered ones |
| Login.ReviewerSessionOf | src/pages/Login.tsx:88-95 | a reviewer's session has role "reviewer" and the reviewer's id and username |
| Login.DefaultAdminSignsIn | src/pages/Login.tsx:22-34 | a fresh browser can sign in as admin/admin123 and lands on /admin |
| Login.ReviewerSessionEntersDashboard | src/pages/Login.tsx:88-102 | the stored reviewer session passes the reviewer dashboard's role gate |
| Login.LoginPage.InitializeDefaultAdmin | src/pages/Login.tsx:22-34 | the default admin is added only to an empty user list |
| Login.LoginPage.HandleLogin | src/pages/Login.tsx:36-120 | a local match wins without querying the table and goes to /admin for super_admin, /reviewer otherwise. Otherwise a query error is "Database query failed", and no row with the entered credentials is invalid credentials. When the first matching row is inactive, the login is refused; when it is active, that row gets a reviewer session and /reviewer. A reviewer session is only ever written for a row of the table whose username and password are the entered ones. Only a sign-in writes the session, and `isLoading` ends false |
| DocumentViewer.LastPiece | src/components/DocumentViewer.tsx:45-47 | `split('.').pop()` is a suffix of the name without a '.' |
| DocumentViewer.LastPieceWhole | src/components/DocumentViewer.tsx:45-47 | the piece is the whole name exactly when the name has no '.' |
| DocumentViewer.LastPieceAfterLastDot | src/components/DocumentViewer.tsx:45-47 | otherwise a '.' stands right before the piece |
| DocumentViewer.LastPieceAfterDot | src/components/DocumentViewer.tsx:45-47 | the piece read from `base + "." + ext` is `ext` |
| DocumentViewer.LastPieceToLower | src/components/DocumentViewer.tsx:46 | lower-casing commutes with taking the last piece |
| DocumentViewer.PercentEncodeAlphabet | src/components/DocumentViewer.tsx:88 | `encodeURIComponent` output uses only unreserved characters, '%' and upper-case hexadecimal digits |
| DocumentViewer.PercentRoundTrip | src/components/DocumentViewer.tsx:88 | percent-decoding the encoded bytes gives them back |
| DocumentViewer.EncodeUriComponentRoundTrip | src/components/DocumentViewer.tsx:88 | percent-decoding and then UTF-8-decoding the Office viewer's parameter gives back the document URL |
| DocumentViewer.RenderPreview | src/components/DocumentViewer.tsx:49-109 | pdf gives the PDF frame on `url#view=FitH`; jpg, jpeg, png, gif, webp and bmp give the image; doc and docx give the Office viewer on the encoded URL; anything else gives the fallback link |
| DocumentViewer.AcceptedUploadsOpenInOfficeViewer | src/components/DocumentViewer.tsx:84-88 | every name the submission form accepts is previewed in the Office viewer |

## Left out

- JSX, toasts, navigation, `loadData` reloads and the presentation-only components are not modelled. Each handler's toast is represented by its outcome value.
- Network calls are inputs to the methods: Supabase queries and writes, the upload server, the token and Gmail endpoints, and `functions.invoke`. HTTP itself is not modelled. Handlers run one at a time, and async interleaving and races are not modelled.
- `new Date()`, `toLocaleDateString('en-IN')` and `Math.random()` are inputs. Dates are day numbers, and formatting is a function parameter.
- Text.ToLower: maps only ASCII A-Z, not full Unicode case mapping.
- Templates.Capitalize: upper-cases only ASCII a-z. JavaScript's `toUpperCase` uses full Unicode case mapping and can lengthen a string ("ß" becomes "SS"); the statuses it is applied to are ASCII.
- Login.LoginPage.HandleLogin: the order in which the database returns the matching rows is not modelled. The first matching row in table order stands for `reviewers[0]`.
- Utf8.Encode: strings are sequences of Unicode scalar values, so lone surrogates cannot occur. The replacement character that TextEncoder writes for them, and the URIError that `encodeURIComponent` throws for them, are not modelled.
- The email regex is an explicit predicate, proved equal to the pattern read as a regular expression. No regex engine is modelled.
- The part declares quoted-printable, but the html is inserted as it is. The model does the same and does not implement quoted-printable.
- The `btoa(String.fromCharCode(...bytes))` argument-count limit of the JavaScript engine is not modelled.
- The CSS inline styles of the templates are abbreviated to the colours that carry meaning. Only the credentials, confirmation, assignment, status-update and author templates are modelled. The unused registration template is not. `shouldExcludeFromStudentEmails` only delegates to `shouldExcludeFromAllEmails`, so the model uses the latter directly.
- SubmissionForm.Form.HandleSubmit: the "No file selected" error cannot occur after validation, so it has no branch. The toasts of the upload errors are folded into `Error(message)`.
- The `handleInputChange` and other setter callbacks are plain field writes, left to the classes' fields. The file picker's DOM input is the `fileInputValue` field.
- The local-storage JSON parsing is not modelled. Local storage is the `users` and `currentUser` fields.
- `onReviewerCreated`, `onClose`, `onConfirm` and `onFilteredResults` are represented by the outcome values and the reported list.
- The document download (fetch, Blob, DOM link) in `handleDownload` is not modelled.
- ReviewerDashboard.AssignedTo: the `.order('submitted_at', desc)` of the query is not modelled. The table is taken in the order the query returns it.
- The count cards by submission type on both dashboards are plain filter lengths and have no lemma of their own.
