/** The search panel over the submission list
    (src/components/SubmissionSearchFilter.tsx): four criteria, each skipped
    while blank, applied one after the other; the list it hands to its
    parent is the rows meeting every active criterion, in their order. */
module SearchFilter {
  import opened Wrappers
  import opened Text
  import opened Seqs
  import opened Records

  /** The `filters` state. */
  datatype Criteria = Criteria(name: string, submissionId: string, phone: string, email: string)

  const NoCriteria := Criteria("", "", "", "")

  /** The keys `handleFilterChange` is called with. */
  datatype CriterionKey = NameKey | SubmissionIdKey | PhoneKey | EmailKey

  function Get(c: Criteria, key: CriterionKey): string {
    match key
    case NameKey => c.name
    case SubmissionIdKey => c.submissionId
    case PhoneKey => c.phone
    case EmailKey => c.email
  }

  /** `{ ...filters, [key]: value }` */
  function With(c: Criteria, key: CriterionKey, value: string): (r: Criteria)
    ensures forall k :: Get(r, k) == if k == key then value else Get(c, k)
  {
    match key
    case NameKey => c.(name := value)
    case SubmissionIdKey => c.(submissionId := value)
    case PhoneKey => c.(phone := value)
    case EmailKey => c.(email := value)
  }

  /** The author or the co-author name holds the query, ignoring case. */
  predicate NameMatches(s: Submission, query: string) {
    IncludesIgnoringCase(s.authorName, query) || IncludesIgnoringCase(s.coAuthorName, query)
  }

  /** `submission.submission_id?.toLowerCase().includes(…)`: a row without
      an id never matches. */
  predicate IdMatches(s: Submission, query: string) {
    s.submissionId.Some? && IncludesIgnoringCase(s.submissionId.value, query)
  }

  /** The phone number or a non-empty WhatsApp number holds the query, with
      case counted. */
  predicate PhoneMatches(s: Submission, query: string) {
    Includes(s.phoneNumber, query)
    || (s.whatsappNumber.Some? && s.whatsappNumber.value != "" && Includes(s.whatsappNumber.value, query))
  }

  predicate EmailMatches(s: Submission, query: string) {
    IncludesIgnoringCase(s.email, query)
  }

  /** The `filter` callback of one criterion. */
  predicate Matches(s: Submission, c: Criteria, key: CriterionKey) {
    match key
    case NameKey => NameMatches(s, c.name)
    case SubmissionIdKey => IdMatches(s, c.submissionId)
    case PhoneKey => PhoneMatches(s, c.phone)
    case EmailKey => EmailMatches(s, c.email)
  }

  /** One criterion: passed by every row while its value is blank. */
  predicate Passes(s: Submission, c: Criteria, key: CriterionKey) {
    IsBlank(Get(c, key)) || Matches(s, c, key)
  }

  /** A row is listed when it passes all four criteria. */
  predicate Keeps(s: Submission, c: Criteria) {
    Passes(s, c, NameKey) && Passes(s, c, SubmissionIdKey) && Passes(s, c, PhoneKey) && Passes(s, c, EmailKey)
  }

  /** The rows meeting every criterion, in their order. */
  function Listed(submissions: seq<Submission>, c: Criteria): seq<Submission> {
    Filter(submissions, (s: Submission) => Keeps(s, c))
  }

  /** The order in which `applyFilters` takes the criteria. */
  const Order: seq<CriterionKey> := [NameKey, SubmissionIdKey, PhoneKey, EmailKey]

  /** The row passes the first `n` criteria of `Order`. */
  predicate PassesFirst(s: Submission, c: Criteria, n: nat)
    requires n <= 4
  {
    n == 0 || (PassesFirst(s, c, n - 1) && Passes(s, c, Order[n - 1]))
  }

  /** `filtered` after the first `n` steps of `applyFilters`. */
  function KeptAfter(rows: seq<Submission>, c: Criteria, n: nat): seq<Submission>
    requires n <= 4
  {
    Filter(rows, (s: Submission) => PassesFirst(s, c, n))
  }

  /** Step `n` of `applyFilters`: skipped while its criterion is blank,
      otherwise a filter by its callback `test`; either way it moves from
      the first `n` criteria to the first `n + 1`. */
  lemma Narrow(rows: seq<Submission>, c: Criteria, n: nat, test: Submission -> bool)
    requires n < 4
    requires forall s :: test(s) == Matches(s, c, Order[n])
    ensures (if IsBlank(Get(c, Order[n])) then KeptAfter(rows, c, n) else Filter(KeptAfter(rows, c, n), test))
      == KeptAfter(rows, c, n + 1)
  {
    var before := (s: Submission) => PassesFirst(s, c, n);
    var after := (s: Submission) => PassesFirst(s, c, n + 1);
    if IsBlank(Get(c, Order[n])) {
      FilterExt(rows, before, after);
    } else {
      FilterFilter(rows, before, test, after);
    }
  }

  /** No step taken keeps every row; all four taken is the listed rows. */
  lemma KeptEnds(rows: seq<Submission>, c: Criteria)
    ensures KeptAfter(rows, c, 0) == rows
    ensures KeptAfter(rows, c, 4) == Listed(rows, c)
  {
    FilterAll(rows, (s: Submission) => PassesFirst(s, c, 0));
    forall s ensures PassesFirst(s, c, 4) == Keeps(s, c) {
      assert PassesFirst(s, c, 1) == Passes(s, c, NameKey);
      assert PassesFirst(s, c, 2) == (PassesFirst(s, c, 1) && Passes(s, c, SubmissionIdKey));
      assert PassesFirst(s, c, 3) == (PassesFirst(s, c, 2) && Passes(s, c, PhoneKey));
    }
    FilterExt(rows, (s: Submission) => PassesFirst(s, c, 4), (s: Submission) => Keeps(s, c));
  }

  /** `if (query.trim()) filtered = filtered.filter(test)` */
  method NarrowIfActive(filtered: seq<Submission>, query: string, test: Submission -> bool)
    returns (narrowed: seq<Submission>)
    ensures narrowed == if IsBlank(query) then filtered else Filter(filtered, test)
  {
    narrowed := filtered;
    if !IsBlank(query) {
      narrowed := Filter(filtered, test);
    }
  }

  /** `applyFilters`: each active criterion narrows `filtered` in turn; the
      result is the rows meeting all of them, in their original order. */
  method ApplyFilters(submissions: seq<Submission>, c: Criteria) returns (filtered: seq<Submission>)
    ensures filtered == Listed(submissions, c)
    ensures IsSubsequence(filtered, submissions)
  {
    KeptEnds(submissions, c);
    filtered := submissions;
    var byName := (s: Submission) => NameMatches(s, c.name);
    Narrow(submissions, c, 0, byName);
    filtered := NarrowIfActive(filtered, c.name, byName);
    var byId := (s: Submission) => IdMatches(s, c.submissionId);
    Narrow(submissions, c, 1, byId);
    filtered := NarrowIfActive(filtered, c.submissionId, byId);
    var byPhone := (s: Submission) => PhoneMatches(s, c.phone);
    Narrow(submissions, c, 2, byPhone);
    filtered := NarrowIfActive(filtered, c.phone, byPhone);
    var byEmail := (s: Submission) => EmailMatches(s, c.email);
    Narrow(submissions, c, 3, byEmail);
    filtered := NarrowIfActive(filtered, c.email, byEmail);
    FilterIsSubsequence(submissions, (s: Submission) => Keeps(s, c));
  }

  /** `hasActiveFilters`: some criterion is non-blank. */
  function HasActiveFilters(c: Criteria): (r: bool)
    ensures r <==> exists key :: !IsBlank(Get(c, key))
  {
    assert !IsBlank(c.name) ==> !IsBlank(Get(c, NameKey));
    assert !IsBlank(c.submissionId) ==> !IsBlank(Get(c, SubmissionIdKey));
    assert !IsBlank(c.phone) ==> !IsBlank(Get(c, PhoneKey));
    assert !IsBlank(c.email) ==> !IsBlank(Get(c, EmailKey));
    !IsBlank(c.name) || !IsBlank(c.submissionId) || !IsBlank(c.phone) || !IsBlank(c.email)
  }

  /** With no active criterion the whole list is shown, which is also what
      `clearFilters` reports. */
  lemma InactiveShowsAll(submissions: seq<Submission>, c: Criteria)
    requires !HasActiveFilters(c)
    ensures Listed(submissions, c) == submissions
  {
    FilterAll(submissions, (s: Submission) => Keeps(s, c));
  }

  /** The name, id and email criteria ignore the case of the query. */
  lemma QueriesIgnoreCase(s: Submission, query: string)
    ensures NameMatches(s, query) == NameMatches(s, ToLower(query))
    ensures IdMatches(s, query) == IdMatches(s, ToLower(query))
    ensures EmailMatches(s, query) == EmailMatches(s, ToLower(query))
  {
    ToLowerIdempotent(query);
  }

  /** With an active id criterion, rows without a `submission_id` are never
      listed. */
  lemma MissingIdExcluded(submissions: seq<Submission>, c: Criteria, s: Submission)
    requires !IsBlank(c.submissionId) && s.submissionId.None?
    ensures s !in Listed(submissions, c)
  {
  }

  /** The panel: the list it filters, its criteria, and the list it last
      reported through `onFilteredResults`. */
  class SearchPanel {
    const submissions: seq<Submission>
    var filters: Criteria
    var reported: seq<Submission>

    constructor (submissions: seq<Submission>)
      ensures this.submissions == submissions && filters == NoCriteria && reported == submissions
    {
      this.submissions := submissions;
      filters := NoCriteria;
      reported := submissions;
    }

    /** `handleFilterChange`: only the named criterion changes, then every
        criterion is applied again. */
    method HandleFilterChange(key: CriterionKey, value: string)
      modifies this
      ensures filters == With(old(filters), key, value)
      ensures reported == Listed(submissions, filters)
    {
      var newFilters := With(filters, key, value);
      filters := newFilters;
      reported := ApplyFilters(submissions, newFilters);
    }

    /** `clearFilters`: all four criteria become "" and the whole list is
        reported, which is what the criteria now select. */
    method ClearFilters()
      modifies this
      ensures filters == NoCriteria && !HasActiveFilters(filters)
      ensures reported == submissions
      ensures reported == Listed(submissions, filters)
    {
      filters := NoCriteria;
      reported := submissions;
      InactiveShowsAll(submissions, filters);
    }
  }
}
