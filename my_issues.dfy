/** The student's "My Issues" screen: their own issues narrowed by a
    status drop-down and a search box, and the message shown when nothing
    is left. */
module MyIssues {
  import opened Types
  import opened Seqs
  import opened Text
  import AppContext

  /** The search box: the term, ignoring case, occurs in the title, the
      description, the category or the location (not the student's name,
      which is always the viewer's own). */
  predicate StudentSearchMatches(i: Issue, term: string) {
    || Includes(i.title, term)
    || Includes(i.description, term)
    || Includes(i.category, term)
    || Includes(i.location, term)
  }

  predicate StudentMatches(i: Issue, statusFilter: string, term: string) {
    (statusFilter == "all" || StatusName(i.status) == statusFilter)
    && StudentSearchMatches(i, term)
  }

  /** `getStudentIssues(user.id).filter(...)`. */
  function FilteredIssues(issues: seq<Issue>, userId: string, statusFilter: string, term: string): seq<Issue> {
    Filter(AppContext.StudentIssues(issues, userId), (x: Issue) => StudentMatches(x, statusFilter, term))
  }

  /** Only the viewer's issues are shown, in store order, and exactly those
      of them that pass both conditions. */
  lemma FilteredIssuesSpec(issues: seq<Issue>, userId: string, sf: string, term: string)
    ensures var r := FilteredIssues(issues, userId, sf, term);
      && Subseq(r, AppContext.StudentIssues(issues, userId))
      && Subseq(r, issues)
      && (forall x :: x in r ==> x.studentId == userId)
      && (forall x :: x in r <==> x in issues && x.studentId == userId && StudentMatches(x, sf, term))
  {
    var mine := AppContext.StudentIssues(issues, userId);
    var p := (x: Issue) => StudentMatches(x, sf, term);
    FilterIsSubseq(mine, p);
    SubseqTrans(Filter(mine, p), mine, issues);
  }

  /** `'all'` admits every status; another value only the status of that
      name. */
  lemma StatusFilterSpec(i: Issue, sf: string, term: string)
    requires StudentSearchMatches(i, term)
    ensures sf == "all" ==> StudentMatches(i, sf, term)
    ensures sf != "all" ==> (StudentMatches(i, sf, term) <==> ParseStatus(sf) == Some(i.status))
  {
    StatusNameRoundTrip(i.status);
  }

  /** With `'all'` and an empty search every one of the viewer's issues is
      shown. */
  lemma NoFilterShowsAll(issues: seq<Issue>, userId: string)
    ensures FilteredIssues(issues, userId, "all", "") == AppContext.StudentIssues(issues, userId)
  {
    var mine := AppContext.StudentIssues(issues, userId);
    forall x | x in mine
      ensures StudentMatches(x, "all", "")
    {
      IncludesCaseInsensitive(x.title, "");
    }
    FilterAll(mine, (x: Issue) => StudentMatches(x, "all", ""));
  }

  const AdjustCriteria := "Try adjusting your search or filter criteria."
  const NothingReported := "You haven't reported any issues yet."

  /** The text under "No issues found". */
  function EmptyStateMessage(term: string, statusFilter: string): (msg: string)
    ensures msg == AdjustCriteria <==> term != "" || statusFilter != "all"
    ensures msg == NothingReported <==> term == "" && statusFilter == "all"
  {
    if term != "" || statusFilter != "all" then AdjustCriteria else NothingReported
  }

  /** With no criteria the list is empty only when the viewer has reported
      nothing, so the second message never hides an issue. */
  lemma NothingReportedIsTrue(issues: seq<Issue>, userId: string)
    requires FilteredIssues(issues, userId, "all", "") == []
    ensures forall x :: x in issues ==> x.studentId != userId
  {
    NoFilterShowsAll(issues, userId);
  }
}
