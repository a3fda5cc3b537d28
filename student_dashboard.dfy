/** The student's dashboard: counts of their own issues by status, their
    three most recent issues, and the shortened description each shows. */
module StudentDashboard {
  import opened Types
  import opened Seqs
  import opened IssueStats
  import AppContext

  /** The student's own issues add up across the three statuses. */
  lemma StudentCountsPartition(issues: seq<Issue>, userId: string)
    ensures var mine := AppContext.StudentIssues(issues, userId);
      CountStatus(mine, Pending) + CountStatus(mine, InProgress) + CountStatus(mine, Resolved) == |mine|
  {
    StatusCountsPartition(AppContext.StudentIssues(issues, userId));
  }

  /** The sort key: newer issues have larger stamps. */
  function CreatedAt(x: Issue): int { x.createdAt }

  /** `userIssues.sort(newest first).slice(0, 3)`; the sort is stable, as
      JavaScript's is. */
  function RecentIssues(issues: seq<Issue>, userId: string): seq<Issue> {
    TopN(AppContext.StudentIssues(issues, userId), CreatedAt, 3)
  }

  /** At most three issues, all the student's own, newest first; with
      three or fewer issues all of them are shown. */
  lemma RecentIssuesSpec(issues: seq<Issue>, userId: string)
    ensures var mine := AppContext.StudentIssues(issues, userId);
      var r := RecentIssues(issues, userId);
      && |r| == Min(3, |mine|)
      && (forall x :: x in r ==> x in issues && x.studentId == userId)
      && SortedDesc(r, CreatedAt)
      && (|mine| <= 3 ==> multiset(r) == multiset(mine))
  {
    var mine := AppContext.StudentIssues(issues, userId);
    var r := RecentIssues(issues, userId);
    forall x | x in r
      ensures x in mine
    {
      assert x in multiset(r);
    }
  }

  /** An issue of the student's left out is no newer than the last one
      shown, and then three are shown. */
  lemma RecentIssuesLeftOut(issues: seq<Issue>, userId: string, y: Issue)
    requires y in multiset(AppContext.StudentIssues(issues, userId)) - multiset(RecentIssues(issues, userId))
    ensures var r := RecentIssues(issues, userId);
      |r| == 3 && y.createdAt <= r[2].createdAt
  {
    TopNLeavesSmaller(AppContext.StudentIssues(issues, userId), CreatedAt, 3, y);
  }

  /** `description.substring(0, 120) + '...'`. */
  function DescriptionPreview(d: string): (p: string)
    ensures |p| == Min(120, |d|) + 3
    ensures p[..|p| - 3] <= d
    ensures p[|p| - 3..] == "..."
  {
    d[..Min(120, |d|)] + "..."
  }

  /** A short description is shown whole; a long one is cut to its first
      120 characters. */
  lemma DescriptionPreviewSpec(d: string)
    ensures |d| <= 120 ==> DescriptionPreview(d) == d + "..."
    ensures 120 < |d| ==> DescriptionPreview(d) == d[..120] + "..."
  {
  }
}
