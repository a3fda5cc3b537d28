/** The administrator's dashboard: the status counts, the number of issues
    reported in the last seven days, the five busiest categories and three
    busiest departments, and the resolution-rate and active-percentage
    figures. */
module AdminDashboard {
  import opened Types
  import opened Seqs
  import opened IssueStats
  import Analytics

  /** Seven days in milliseconds: `weekAgo.setDate(weekAgo.getDate() - 7)`
      taken as a fixed span. */
  const Week: nat := 7 * Analytics.MsPerDay

  // ---------------------------------------------------------------------
  // Reported in the last seven days

  /** `new Date(issue.createdAt) >= weekAgo`, with `weekAgo` seven days
      before `now`. */
  predicate IsRecent(i: Issue, now: nat) {
    i.createdAt + Week >= now
  }

  function RecentCount(issues: seq<Issue>, now: nat): (n: nat)
    ensures n <= |issues|
  {
    |Filter(issues, (x: Issue) => IsRecent(x, now))|
  }

  /** All issues count when all are recent, none when none is. */
  lemma RecentCountBounds(issues: seq<Issue>, now: nat)
    ensures (forall x :: x in issues ==> IsRecent(x, now)) ==> RecentCount(issues, now) == |issues|
    ensures (forall x :: x in issues ==> !IsRecent(x, now)) ==> RecentCount(issues, now) == 0
  {
    var p := (x: Issue) => IsRecent(x, now);
    if forall x :: x in issues ==> IsRecent(x, now) {
      FilterAll(issues, p);
    }
    if forall x :: x in issues ==> !IsRecent(x, now) {
      var r := Filter(issues, p);
      if r != [] {
        assert r[0] in r;
      }
    }
  }

  /** Appending an issue adds one to the count exactly when it is recent;
      in particular an issue created at `now` counts. */
  lemma RecentCountAppend(issues: seq<Issue>, i: Issue, now: nat)
    ensures RecentCount(issues + [i], now)
            == RecentCount(issues, now) + (if IsRecent(i, now) then 1 else 0)
    ensures i.createdAt == now ==> RecentCount(issues + [i], now) == RecentCount(issues, now) + 1
  {
    var p := (x: Issue) => IsRecent(x, now);
    FilterAppend(issues, [i], p);
    assert [i][1..] == [];
  }

  /** As the clock advances, the count never grows. */
  lemma RecentCountMonotone(issues: seq<Issue>, now: nat, later: nat)
    requires now <= later
    ensures RecentCount(issues, later) <= RecentCount(issues, now)
  {
    FilterMonotone(issues, (x: Issue) => IsRecent(x, later), (x: Issue) => IsRecent(x, now));
  }

  // ---------------------------------------------------------------------
  // Top categories and departments

  function TopCategories(issues: seq<Issue>): seq<(string, nat)> {
    TopKeys(issues, CategoryOf, 5)
  }

  function TopDepartments(issues: seq<Issue>): seq<(string, nat)> {
    TopKeys(issues, DepartmentOf, 3)
  }

  /** At most five entries, by count from the largest, each a pair of the
      category breakdown and no category twice; a category left out counts
      no more than the fifth entry. */
  lemma TopCategoriesSpec(issues: seq<Issue>, c: string)
    ensures var t := TopCategories(issues);
      var m := Breakdown(issues, CategoryOf);
      && |t| <= 5
      && SortedDesc(t, EntryCount)
      && NoDuplicates(t)
      && (forall e :: e in t ==> e.0 in m && e.1 == m[e.0])
      && (c in m && (forall e :: e in t ==> e.0 != c) ==> |t| == 5 && m[c] <= t[4].1)
  {
    TopKeysSpec(issues, CategoryOf, 5, c);
  }

  /** The same for the departments, with three entries. */
  lemma TopDepartmentsSpec(issues: seq<Issue>, d: string)
    ensures var t := TopDepartments(issues);
      var m := Breakdown(issues, DepartmentOf);
      && |t| <= 3
      && SortedDesc(t, EntryCount)
      && NoDuplicates(t)
      && (forall e :: e in t ==> e.0 in m && e.1 == m[e.0])
      && (d in m && (forall e :: e in t ==> e.0 != d) ==> |t| == 3 && m[d] <= t[2].1)
  {
    TopKeysSpec(issues, DepartmentOf, 3, d);
  }

  // ---------------------------------------------------------------------
  // Active issues

  /** `pendingIssues + inProgressIssues`. */
  function ActiveCount(issues: seq<Issue>): nat {
    CountStatus(issues, Pending) + CountStatus(issues, InProgress)
  }

  /** The active issues are those not yet resolved. */
  lemma ActiveCountSpec(issues: seq<Issue>)
    ensures ActiveCount(issues) == |issues| - CountStatus(issues, Resolved)
  {
    StatusCountsPartition(issues);
  }

  /** `totalIssues > 0 ? (active / totalIssues) * 100 : 0`. */
  function ActivePercentage(issues: seq<Issue>): (r: real)
    ensures |issues| == 0 ==> r == 0.0
    ensures 0.0 <= r <= 100.0
  {
    ActiveCountSpec(issues);
    GuardedPercent(ActiveCount(issues), |issues|)
  }

  /** With at least one issue, the resolved and active shares make up the
      whole. */
  lemma SharesComplement(issues: seq<Issue>)
    requires 0 < |issues|
    ensures ActivePercentage(issues) + ResolutionRate(issues) == 100.0
  {
    ActiveCountSpec(issues);
    PercentsAddUp(ActiveCount(issues), CountStatus(issues, Resolved), |issues|);
  }

  lemma PercentsAddUp(a: nat, b: nat, n: nat)
    requires 0 < n && a + b == n
    ensures Percent(a, n) + Percent(b, n) == 100.0
  {
    var pa := Percent(a, n);
    var pb := Percent(b, n);
    PercentSpec(a, n);
    PercentSpec(b, n);
    assert (pa + pb - 100.0) * n as real == pa * n as real + pb * n as real - 100.0 * n as real;
    assert (pa + pb - 100.0) * n as real == 0.0;
  }
}
