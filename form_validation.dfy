/** The checks of the public submission form (src/pages/Index.tsx): the
    form's fields, the email pattern and the error record `validateForm`
    fills. */
module FormValidation {
  import opened Wrappers
  import opened Text

  /** `formData` */
  datatype FormData = FormData(
    submissionType: string,
    authorName: string,
    coAuthorName: string,
    email: string,
    phoneCountryCode: string,
    phoneNumber: string,
    whatsappCountryCode: string,
    whatsappNumber: string,
    paperTitle: string,
    institution: string,
    designation: string,
    department: string,
    presentationMode: string,
    journalPublication: string,
    message: string)

  const InitialForm := FormData("", "", "", "", "+91", "", "+91", "", "", "", "", "", "", "", "")

  /** The picked file, by its name. */
  datatype FileInfo = FileInfo(name: string)

  // ---------------------------------------------------------------------
  // The email pattern ^[^\s@]+@[^\s@]+\.[^\s@]+$

  /** One character of the class `[^\s@]`. */
  predicate PlainChar(c: char) {
    !IsSpace(c) && c != '@'
  }

  predicate AllPlain(s: string) {
    forall i :: 0 <= i < |s| ==> PlainChar(s[i])
  }

  /** The pattern read as a regular expression: a split into a non-empty
      plain run, '@', a non-empty plain run, '.', a non-empty plain run. */
  ghost predicate MatchesEmailPattern(s: string) {
    exists k, j :: 0 < k && k + 1 < j < |s| - 1 && s[k] == '@' && s[j] == '.'
      && AllPlain(s[..k]) && AllPlain(s[k + 1..j]) && AllPlain(s[j + 1..])
  }

  predicate NoSpace(s: string) {
    forall i :: 0 <= i < |s| ==> !IsSpace(s[i])
  }

  /** `s[k]` is the only '@' of `s`. */
  predicate OnlyAt(s: string, k: int) {
    forall i :: 0 <= i < |s| && i != k ==> s[i] != '@'
  }

  predicate DotBetween(s: string, lo: int, hi: int) {
    exists j :: lo < j < hi && 0 <= j < |s| && s[j] == '.'
  }

  /** The position of the first '@' of `s`, if any. */
  function FirstAt(s: string): (r: Option<nat>)
    ensures r.Some? ==> r.value < |s| && s[r.value] == '@' && forall i :: 0 <= i < r.value ==> s[i] != '@'
    ensures r.None? ==> forall i :: 0 <= i < |s| ==> s[i] != '@'
  {
    if s == [] then None
    else if s[0] == '@' then Some(0)
    else match FirstAt(s[1..])
      case None => None
      case Some(k) => Some(k + 1)
  }

  /** The pattern as a check: no white space, exactly one '@' with something
      before it, and after it a '.' that is neither the first nor the last
      character of the domain. */
  predicate IsValidEmail(s: string) {
    NoSpace(s) && match FirstAt(s)
      case None => false
      case Some(k) => 0 < k && OnlyAt(s, k) && DotBetween(s, k + 1, |s| - 1)
  }

  lemma AllPlainSlice(s: string, lo: int, hi: int)
    requires 0 <= lo <= hi <= |s|
    requires forall i :: lo <= i < hi ==> PlainChar(s[i])
    ensures AllPlain(s[lo..hi])
  {
    forall i | 0 <= i < hi - lo ensures PlainChar(s[lo..hi][i]) {
      assert s[lo..hi][i] == s[lo + i];
    }
  }

  lemma SliceAllPlain(s: string, lo: int, hi: int, i: int)
    requires 0 <= lo <= i < hi <= |s|
    requires AllPlain(s[lo..hi])
    ensures PlainChar(s[i])
  {
    assert s[lo..hi][i - lo] == s[i];
  }

  /** The check accepts exactly the strings the regular expression matches. */
  lemma EmailPatternIff(s: string)
    ensures IsValidEmail(s) <==> MatchesEmailPattern(s)
  {
    if IsValidEmail(s) {
      ValidEmailMatches(s);
    }
    if MatchesEmailPattern(s) {
      MatchingEmailIsValid(s);
    }
  }

  lemma ValidEmailMatches(s: string)
    requires IsValidEmail(s)
    ensures MatchesEmailPattern(s)
  {
    var k := FirstAt(s).value;
    var j :| k + 1 < j < |s| - 1 && 0 <= j < |s| && s[j] == '.';
    AllPlainSlice(s, 0, k);
    AllPlainSlice(s, k + 1, j);
    AllPlainSlice(s, j + 1, |s|);
  }

  lemma MatchingEmailIsValid(s: string)
    requires MatchesEmailPattern(s)
    ensures IsValidEmail(s)
  {
    var k, j :| 0 < k && k + 1 < j < |s| - 1 && s[k] == '@' && s[j] == '.'
      && AllPlain(s[..k]) && AllPlain(s[k + 1..j]) && AllPlain(s[j + 1..]);
    forall i | 0 <= i < |s| && i != k ensures s[i] != '@' && !IsSpace(s[i]) {
      if i < k { SliceAllPlain(s, 0, k, i); }
      else if i < j { SliceAllPlain(s, k + 1, j, i); }
      else if i > j { SliceAllPlain(s, j + 1, |s|, i); }
    }
    assert DotBetween(s, k + 1, |s| - 1);
    assert FirstAt(s) == Some(k);
  }

  /** A non-empty email of white space only fails the pattern, so its error
      reads "Please enter a valid email address", not "Email is required". */
  lemma BlankEmailIsInvalid(email: string)
    ensures email != "" && IsBlank(email) ==> !IsValidEmail(email)
  {
    if email != "" && IsBlank(email) {
      BlankIffAllSpace(email);
      assert IsSpace(email[0]);
    }
  }

  // ---------------------------------------------------------------------
  // Validation

  /** The fields `validateForm` may report on (the keys of `errors`); the
      co-author, WhatsApp, message and journal fields are never checked. */
  datatype FieldKey =
    | SubmissionTypeKey | AuthorNameKey | EmailKey | PhoneCountryCodeKey | PhoneNumberKey | PaperTitleKey
    | InstitutionKey | DesignationKey | DepartmentKey | PresentationModeKey | DocumentKey

  /** The two kinds of message `validateForm` records. */
  datatype Problem = Required | InvalidEmail

  /** The text shown under a field for its problem. */
  function MessageText(key: FieldKey, p: Problem): string {
    if p == InvalidEmail then "Please enter a valid email address"
    else match key
      case SubmissionTypeKey => "Submission type is required"
      case AuthorNameKey => "Author name is required"
      case EmailKey => "Email is required"
      case PhoneCountryCodeKey => "Country code is required"
      case PhoneNumberKey => "Phone number is required"
      case PaperTitleKey => "Paper title is required"
      case InstitutionKey => "Institution is required"
      case DesignationKey => "Designation is required"
      case DepartmentKey => "Department is required"
      case PresentationModeKey => "Presentation mode is required"
      case DocumentKey => "Document upload is required"
  }

  /** The problem recorded for the email field, if any: a non-empty address
      that fails the pattern is invalid (even one of white space only),
      an empty or blank one is missing. */
  function EmailError(email: string): (r: Option<Problem>)
    ensures r == Some(InvalidEmail) <==> email != "" && !IsValidEmail(email)
    ensures r == Some(Required) <==> email == ""
  {
    BlankEmailIsInvalid(email);
    if email != "" && !IsValidEmail(email) then Some(InvalidEmail)
    else if IsBlank(email) then Some(Required)
    else None
  }

  /** The check `validateForm` applies to one field. The selects (type,
      country code, presentation mode) are only tested for the empty
      string; the typed fields are trimmed first; the email is tested as
      `EmailError` says. */
  function FieldProblem(form: FormData, file: Option<FileInfo>, key: FieldKey): Option<Problem> {
    match key
    case SubmissionTypeKey => if form.submissionType == "" then Some(Required) else None
    case AuthorNameKey => if IsBlank(form.authorName) then Some(Required) else None
    case EmailKey => EmailError(form.email)
    case PhoneCountryCodeKey => if form.phoneCountryCode == "" then Some(Required) else None
    case PhoneNumberKey => if IsBlank(form.phoneNumber) then Some(Required) else None
    case PaperTitleKey => if IsBlank(form.paperTitle) then Some(Required) else None
    case InstitutionKey => if IsBlank(form.institution) then Some(Required) else None
    case DesignationKey => if IsBlank(form.designation) then Some(Required) else None
    case DepartmentKey => if IsBlank(form.department) then Some(Required) else None
    case PresentationModeKey => if form.presentationMode == "" then Some(Required) else None
    case DocumentKey => if file.None? then Some(Required) else None
  }

  /** One "required" check of `validateForm`: the field it guards and
      whether it failed. */
  datatype Check = Check(key: FieldKey, failed: bool)

  /** The eleven "required" checks in the source's order: the selects are
      compared with "", the typed fields are trimmed first, and a file must
      be chosen. */
  function RequiredChecks(f: FormData, file: Option<FileInfo>): seq<Check> {
    [ Check(SubmissionTypeKey, f.submissionType == ""),
      Check(AuthorNameKey, IsBlank(f.authorName)),
      Check(EmailKey, IsBlank(f.email)),
      Check(PhoneCountryCodeKey, f.phoneCountryCode == ""),
      Check(PhoneNumberKey, IsBlank(f.phoneNumber)),
      Check(PaperTitleKey, IsBlank(f.paperTitle)),
      Check(InstitutionKey, IsBlank(f.institution)),
      Check(DesignationKey, IsBlank(f.designation)),
      Check(DepartmentKey, IsBlank(f.department)),
      Check(PresentationModeKey, f.presentationMode == ""),
      Check(DocumentKey, file.None?) ]
  }

  /** `if (failed) newErrors[key] = "… is required"`, check after check. */
  function RecordRequired(e: map<FieldKey, Problem>, checks: seq<Check>): map<FieldKey, Problem>
    decreases |checks|
  {
    if checks == [] then e
    else
      var e' := if checks[0].failed then e[checks[0].key := Required] else e;
      RecordRequired(e', checks[1..])
  }

  /** Whether some check in `checks` guards `k` and failed. */
  predicate SomeFailed(checks: seq<Check>, k: FieldKey) {
    exists i | 0 <= i < |checks| :: checks[i] == Check(k, true)
  }

  /** The record after the required checks holds what it held before plus
      one entry per failed check, and every new entry says "required". */
  lemma {:induction false} RecordRequiredAt(e: map<FieldKey, Problem>, checks: seq<Check>, k: FieldKey)
    ensures k in RecordRequired(e, checks) <==> k in e || SomeFailed(checks, k)
    ensures k in RecordRequired(e, checks) && (k in e ==> e[k] == Required) ==>
      RecordRequired(e, checks)[k] == Required
    decreases |checks|
  {
    if checks != [] {
      var e' := if checks[0].failed then e[checks[0].key := Required] else e;
      RecordRequiredAt(e', checks[1..], k);
      if SomeFailed(checks, k) {
        var i :| 0 <= i < |checks| && checks[i] == Check(k, true);
        if i > 0 {
          assert checks[1..][i - 1] == Check(k, true);
        }
      }
      if SomeFailed(checks[1..], k) {
        var i :| 0 <= i < |checks[1..]| && checks[1..][i] == Check(k, true);
        assert checks[i + 1] == Check(k, true);
      }
    }
  }

  /** `newErrors` as `validateForm` fills it: the required checks in order,
      then the pattern check on a non-empty email, whose message replaces
      "Email is required". */
  function Errors(f: FormData, file: Option<FileInfo>): map<FieldKey, Problem> {
    var e := RecordRequired(map[], RequiredChecks(f, file));
    if f.email != "" && !IsValidEmail(f.email) then e[EmailKey := InvalidEmail] else e
  }

  /** A form passes validation exactly when every checked field is filled. */
  predicate Complete(form: FormData, file: Option<FileInfo>) {
    form.submissionType != "" && !IsBlank(form.authorName) && EmailError(form.email).None?
    && form.phoneCountryCode != "" && !IsBlank(form.phoneNumber) && !IsBlank(form.paperTitle)
    && !IsBlank(form.institution) && !IsBlank(form.designation) && !IsBlank(form.department)
    && form.presentationMode != "" && file.Some?
  }
}

/** What the error record of `validateForm` says about the form: one entry
    per failing field, and none exactly when the form is complete. */
module FormErrors {
  import opened Wrappers
  import opened Text
  import opened FormValidation

  /** Each entry of the record is the problem of its field: a field has an
      entry exactly when its check fails. */
  lemma ErrorAt(form: FormData, file: Option<FileInfo>, k: FieldKey)
    ensures k in Errors(form, file) <==> FieldProblem(form, file, k).Some?
    ensures k in Errors(form, file) ==> Errors(form, file)[k] == FieldProblem(form, file, k).value
  {
    var checks := RequiredChecks(form, file);
    RecordRequiredAt(map[], checks, k);
    RequiredCheckOf(form, file, k);
    if k == EmailKey {
      BlankEmailIsInvalid(form.email);
    }
  }

  /** The required check of field `k` failed exactly when `k` is one of the
      required fields and it is empty (or blank). */
  lemma RequiredCheckOf(form: FormData, file: Option<FileInfo>, k: FieldKey)
    ensures SomeFailed(RequiredChecks(form, file), k) <==>
      if k == EmailKey then IsBlank(form.email) else FieldProblem(form, file, k).Some?
  {
    var checks := RequiredChecks(form, file);
    match k
    case SubmissionTypeKey => assert checks[0].key == k;
    case AuthorNameKey => assert checks[1].key == k;
    case EmailKey => assert checks[2].key == k;
    case PhoneCountryCodeKey => assert checks[3].key == k;
    case PhoneNumberKey => assert checks[4].key == k;
    case PaperTitleKey => assert checks[5].key == k;
    case InstitutionKey => assert checks[6].key == k;
    case DesignationKey => assert checks[7].key == k;
    case DepartmentKey => assert checks[8].key == k;
    case PresentationModeKey => assert checks[9].key == k;
    case DocumentKey => assert checks[10].key == k;
  }

  /** No field has a problem exactly when the form is complete; the
      co-author, WhatsApp, journal and message fields never block a
      submission. */
  lemma CompleteIffNoProblem(form: FormData, file: Option<FileInfo>)
    ensures Complete(form, file) <==> forall k :: FieldProblem(form, file, k).None?
  {
    if Complete(form, file) {
      forall k ensures FieldProblem(form, file, k).None? {
        NoProblemWhenComplete(form, file, k);
      }
    } else {
      if form.submissionType == "" { assert FieldProblem(form, file, SubmissionTypeKey).Some?; }
      else if IsBlank(form.authorName) { assert FieldProblem(form, file, AuthorNameKey).Some?; }
      else if EmailError(form.email).Some? { assert FieldProblem(form, file, EmailKey).Some?; }
      else if form.phoneCountryCode == "" { assert FieldProblem(form, file, PhoneCountryCodeKey).Some?; }
      else if IsBlank(form.phoneNumber) { assert FieldProblem(form, file, PhoneNumberKey).Some?; }
      else if IsBlank(form.paperTitle) { assert FieldProblem(form, file, PaperTitleKey).Some?; }
      else if IsBlank(form.institution) { assert FieldProblem(form, file, InstitutionKey).Some?; }
      else if IsBlank(form.designation) { assert FieldProblem(form, file, DesignationKey).Some?; }
      else if IsBlank(form.department) { assert FieldProblem(form, file, DepartmentKey).Some?; }
      else if form.presentationMode == "" { assert FieldProblem(form, file, PresentationModeKey).Some?; }
      else { assert FieldProblem(form, file, DocumentKey).Some?; }
    }
  }

  lemma NoProblemWhenComplete(form: FormData, file: Option<FileInfo>, k: FieldKey)
    requires Complete(form, file)
    ensures FieldProblem(form, file, k).None?
  {
    if k == EmailKey {
    }
  }

  /** No error is recorded exactly when the form is complete. */
  lemma ErrorsEmptyIffComplete(form: FormData, file: Option<FileInfo>)
    ensures Errors(form, file) == map[] <==> Complete(form, file)
  {
    var e := Errors(form, file);
    forall k ensures k in e <==> FieldProblem(form, file, k).Some? {
      ErrorAt(form, file, k);
    }
    CompleteIffNoProblem(form, file);
    if e != map[] {
      var k :| k in e;
    }
  }

  /** The message under the email field: "Please enter a valid email
      address" for a non-empty address off the pattern, "Email is required"
      for an empty one. */
  lemma EmailMessage(form: FormData, file: Option<FileInfo>)
    ensures FieldProblem(form, file, EmailKey).Some? <==> !IsValidEmail(form.email)
    ensures FieldProblem(form, file, EmailKey).Some? ==>
      MessageText(EmailKey, FieldProblem(form, file, EmailKey).value)
      == if form.email == "" then "Email is required" else "Please enter a valid email address"
  {
    if form.email == "" {
      assert FirstAt(form.email).None?;
    }
  }
}
