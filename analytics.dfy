/** The administrator's analytics screen: status counts, resolution rate,
    average resolution time, and the category, department and priority
    breakdowns. */
module Analytics {
  import opened Types
  import opened Seqs
  import opened IssueStats
  import AppContext

  const MsPerDay: nat := 1000 * 60 * 60 * 24

  // ---------------------------------------------------------------------
  // Average resolution time

  /** The running sum of `(updated - created) / msPerDay` over `rs`. */
  function SumResolutionDays(rs: seq<Issue>): real {
    if rs == [] then 0.0
    else SumResolutionDays(rs[..|rs| - 1])
         + (rs[|rs| - 1].updatedAt - rs[|rs| - 1].createdAt) as real / MsPerDay as real
  }

  lemma {:induction false} SumResolutionDaysNonNegative(rs: seq<Issue>)
    requires forall x :: x in rs ==> x.createdAt <= x.updatedAt
    ensures 0.0 <= SumResolutionDays(rs)
  {
    if rs != [] {
      assert forall x :: x in rs[..|rs| - 1] ==> x in rs;
      SumResolutionDaysNonNegative(rs[..|rs| - 1]);
      assert rs[|rs| - 1] in rs;
    }
  }

  /** `total / n`: a mean of non-negative values is non-negative. */
  function Mean(total: real, n: nat): (r: real)
    requires 0 < n
    ensures r * n as real == total
    ensures 0.0 <= total ==> 0.0 <= r
  {
    total / n as real
  }

  /** Mean days from creation to last update over the resolved issues;
      zero, not a division by zero, when none is resolved. */
  function AvgResolutionDays(issues: seq<Issue>): (r: real)
    ensures CountStatus(issues, Resolved) == 0 ==> r == 0.0
    ensures 0 < CountStatus(issues, Resolved) ==>
              r == Mean(SumResolutionDays(WithStatus(issues, Resolved)), CountStatus(issues, Resolved))
  {
    var rs := WithStatus(issues, Resolved);
    if |rs| > 0 then Mean(SumResolutionDays(rs), |rs|) else 0.0
  }

  /** The average is never negative when no resolved issue was last updated
      before it was created. */
  lemma AvgResolutionNonNegative(issues: seq<Issue>)
    requires forall x :: x in issues && x.status == Resolved ==> x.createdAt <= x.updatedAt
    ensures 0.0 <= AvgResolutionDays(issues)
  {
    SumResolutionDaysNonNegative(WithStatus(issues, Resolved));
  }

  // ---------------------------------------------------------------------
  // Category and department statistics

  /** One row of `categoryStats` / `departmentStats`. */
  datatype KeyStat = KeyStat(key: string, count: nat, percentage: real, resolved: nat)

  /** The sort key of the rows. */
  function RowCount(s: KeyStat): int { s.count }

  /** `issues.filter(x => key(x) === k && x.status === 'resolved').length`. */
  function ResolvedWithKey(issues: seq<Issue>, key: Issue -> string, k: string): nat {
    |Filter(issues, (x: Issue) => key(x) == k && x.status == Resolved)|
  }

  lemma {:induction false} ResolvedAtMostCount(issues: seq<Issue>, key: Issue -> string, k: string)
    ensures ResolvedWithKey(issues, key, k) <= CountWithKey(issues, key, k)
  {
    if issues != [] {
      ResolvedAtMostCount(issues[1..], key, k);
    }
  }

  /** The `map` callback: a breakdown entry becomes a row. */
  function StatOf(issues: seq<Issue>, key: Issue -> string, e: (string, nat)): KeyStat
    requires 0 < |issues|
  {
    KeyStat(e.0, e.1, Percent(e.1, |issues|), ResolvedWithKey(issues, key, e.0))
  }

  function StatsOf(issues: seq<Issue>, key: Issue -> string, es: seq<(string, nat)>): (r: seq<KeyStat>)
    requires 0 < |issues|
    ensures |r| == |es|
    ensures forall i :: 0 <= i < |es| ==> r[i] == StatOf(issues, key, es[i])
  {
    if es == [] then [] else [StatOf(issues, key, es[0])] + StatsOf(issues, key, es[1..])
  }

  /** `Object.entries(breakdown).map(...).sort((a, b) => b.count - a.count)`.
      With no issues there are no entries, so no row ever divides by zero. */
  function KeyStats(issues: seq<Issue>, key: Issue -> string): seq<KeyStat> {
    if issues == [] then []
    else SortDesc(StatsOf(issues, key, BreakdownEntries(issues, key)), RowCount)
  }

  function CategoryStats(issues: seq<Issue>): seq<KeyStat> {
    KeyStats(issues, CategoryOf)
  }

  function DepartmentStats(issues: seq<Issue>): seq<KeyStat> {
    KeyStats(issues, DepartmentOf)
  }

  /** What a row of the statistics says about its key: the number of
      issues carrying it (never zero), that number as a share of all issues,
      and how many of them are resolved (never more than the count). */
  predicate RowHolds(issues: seq<Issue>, key: Issue -> string, s: KeyStat) {
    && s.count == CountWithKey(issues, key, s.key)
    && 0 < s.count
    && s.resolved == ResolvedWithKey(issues, key, s.key)
    && s.resolved <= s.count
    && 0 < |issues| && s.percentage == Percent(s.count, |issues|)
  }

  /** Before sorting, the rows follow the distinct keys in first-occurrence
      order and each one holds. */
  lemma UnsortedRows(issues: seq<Issue>, key: Issue -> string)
    requires 0 < |issues|
    ensures var u := StatsOf(issues, key, BreakdownEntries(issues, key));
      && |u| == |Distinct(Project(issues, key))|
      && (forall i :: 0 <= i < |u| ==> u[i].key == Distinct(Project(issues, key))[i])
      && (forall i :: 0 <= i < |u| ==> RowHolds(issues, key, u[i]))
  {
    var ks := Project(issues, key);
    var d := Distinct(ks);
    var m := Breakdown(issues, key);
    var es := BreakdownEntries(issues, key);
    var u := StatsOf(issues, key, es);
    forall i | 0 <= i < |u|
      ensures u[i].key == d[i] && RowHolds(issues, key, u[i])
    {
      RowAt(issues, key, i);
    }
  }

  lemma RowAt(issues: seq<Issue>, key: Issue -> string, i: nat)
    requires 0 < |issues|
    requires i < |Distinct(Project(issues, key))|
    ensures var u := StatsOf(issues, key, BreakdownEntries(issues, key));
      i < |u| && u[i].key == Distinct(Project(issues, key))[i] && RowHolds(issues, key, u[i])
  {
    var ks := Project(issues, key);
    var d := Distinct(ks);
    var m := Breakdown(issues, key);
    var es := BreakdownEntries(issues, key);
    var u := StatsOf(issues, key, es);
    var k := d[i];
    assert es[i] == (k, m[k]);
    assert u[i] == StatOf(issues, key, es[i]);
    BreakdownSpec(issues, key, k);
    ResolvedAtMostCount(issues, key, k);
    assert k in ks;
    assert 0 < multiset(ks)[k];
    assert m[k] == CountWithKey(issues, key, k);
    var row := u[i];
    assert row.count == CountWithKey(issues, key, row.key);
    assert 0 < row.count;
    assert row.resolved == ResolvedWithKey(issues, key, row.key);
    assert row.resolved <= row.count;
  }

  /** Rows with pairwise different keys stay so under any permutation. */
  lemma PermutedRows(u: seq<KeyStat>, r: seq<KeyStat>, issues: seq<Issue>, key: Issue -> string)
    requires multiset(u) == multiset(r)
    requires forall i, j :: 0 <= i < j < |u| ==> u[i].key != u[j].key
    requires forall s :: s in u ==> RowHolds(issues, key, s)
    ensures forall i, j :: 0 <= i < j < |r| ==> r[i].key != r[j].key
    ensures forall s :: s in r ==> RowHolds(issues, key, s)
    ensures forall s :: s in u <==> s in r
  {
    forall s | s in r
      ensures s in u
    {
      assert s in multiset(r);
    }
    forall s | s in u
      ensures s in r
    {
      assert s in multiset(u);
    }
    assert NoDuplicates(u) by {
      forall i, j | 0 <= i < j < |u|
        ensures u[i] != u[j]
      {
      }
    }
    PermutationNoDuplicates(u, r);
    forall i, j | 0 <= i < j < |r|
      ensures r[i].key != r[j].key
    {
      assert r[i] in u && r[j] in u;
      var a :| 0 <= a < |u| && u[a] == r[i];
      var b :| 0 <= b < |u| && u[b] == r[j];
      assert a != b;
    }
  }

  /** One row per distinct key, no key twice, ordered by count from the
      largest, every row holding. */
  lemma KeyStatsSpec(issues: seq<Issue>, key: Issue -> string)
    ensures |KeyStats(issues, key)| == |Distinct(Project(issues, key))|
    ensures SortedDesc(KeyStats(issues, key), RowCount)
    ensures forall i, j :: 0 <= i < j < |KeyStats(issues, key)| ==>
              KeyStats(issues, key)[i].key != KeyStats(issues, key)[j].key
    ensures forall s :: s in KeyStats(issues, key) ==> RowHolds(issues, key, s)
  {
    if issues != [] {
      UnsortedRows(issues, key);
      PermutedRows(StatsOf(issues, key, BreakdownEntries(issues, key)), KeyStats(issues, key), issues, key);
    }
  }

  /** A key has a row exactly when some issue carries it. */
  lemma KeyStatsKeys(issues: seq<Issue>, key: Issue -> string, k: string)
    ensures (exists x :: x in issues && key(x) == k) <==>
            (exists s :: s in KeyStats(issues, key) && s.key == k)
  {
    ProjectMembership(issues, key, k);
    if issues != [] {
      var u := StatsOf(issues, key, BreakdownEntries(issues, key));
      UnsortedRows(issues, key);
      PermutedRows(u, KeyStats(issues, key), issues, key);
      RowKeys(u, KeyStats(issues, key), Distinct(Project(issues, key)), k);
    }
  }

  /** Rows that follow a key list one to one, in any order, have a row for
      exactly the keys of the list. */
  lemma RowKeys(u: seq<KeyStat>, r: seq<KeyStat>, d: seq<string>, k: string)
    requires |u| == |d|
    requires forall i :: 0 <= i < |u| ==> u[i].key == d[i]
    requires forall s :: s in u <==> s in r
    ensures k in d <==> exists s :: s in r && s.key == k
  {
    if k in d {
      var a :| 0 <= a < |d| && d[a] == k;
      assert u[a] in r;
    }
    if exists s :: s in r && s.key == k {
      var s :| s in r && s.key == k;
      var a :| 0 <= a < |u| && u[a] == s;
      assert d[a] == k;
    }
  }

  // ---------------------------------------------------------------------
  // Priority breakdown

  function PriorityOf(x: Issue): Priority { x.priority }

  /** The priority dictionary, keyed on the three priorities. */
  function PriorityBreakdown(issues: seq<Issue>): map<Priority, nat> {
    Tally(Project(issues, PriorityOf))
  }

  /** `priorityBreakdown.high || 0` and its siblings. */
  function PriorityCount(issues: seq<Issue>, p: Priority): nat {
    Get(PriorityBreakdown(issues), p)
  }

  lemma {:induction false} PriorityMultisetSum(ps: seq<Priority>)
    ensures multiset(ps)[High] + multiset(ps)[Medium] + multiset(ps)[Low] == |ps|
  {
    if ps != [] {
      assert ps == [ps[0]] + ps[1..];
      assert multiset(ps) == multiset{ps[0]} + multiset(ps[1..]);
      PriorityMultisetSum(ps[1..]);
      match ps[0]
      case High =>
      case Medium =>
      case Low =>
    }
  }

  lemma PriorityCountByKey(issues: seq<Issue>, p: Priority)
    ensures PriorityCount(issues, p) == multiset(Project(issues, PriorityOf))[p]
  {
    TallyGet(Project(issues, PriorityOf), p);
  }

  /** A priority reads as the number of issues carrying it, zero when there
      are none. */
  lemma PriorityCountsSpec(issues: seq<Issue>, p: Priority)
    ensures PriorityCount(issues, p) == |Filter(issues, (x: Issue) => x.priority == p)|
    ensures (forall x :: x in issues ==> x.priority != p) ==> PriorityCount(issues, p) == 0
  {
    PriorityCountByKey(issues, p);
    CountByKey(issues, PriorityOf, p, (x: Issue) => x.priority == p);
    ProjectMembership(issues, PriorityOf, p);
  }

  /** The three priority counts add up to the number of issues. */
  lemma PriorityCountsSum(issues: seq<Issue>)
    ensures PriorityCount(issues, High) + PriorityCount(issues, Medium) + PriorityCount(issues, Low) == |issues|
  {
    PriorityCountByKey(issues, High);
    PriorityCountByKey(issues, Medium);
    PriorityCountByKey(issues, Low);
    PriorityMultisetSum(Project(issues, PriorityOf));
  }

  /** `totalIssues > 0 ? (count / totalIssues) * 100 : 0` for one priority. */
  function PriorityShare(issues: seq<Issue>, p: Priority): (r: real)
    ensures |issues| == 0 ==> r == 0.0
    ensures 0 < |issues| ==> r == Percent(PriorityCount(issues, p), |issues|)
    ensures 0.0 <= r <= 100.0
  {
    PriorityCountsSpec(issues, p);
    GuardedPercent(PriorityCount(issues, p), |issues|)
  }

  // ---------------------------------------------------------------------
  // The seed data

  /** On the three seed issues: one issue per status. */
  lemma SeedStatusCounts()
    ensures CountStatus(AppContext.SeedIssues, Pending) == 1
    ensures CountStatus(AppContext.SeedIssues, InProgress) == 1
    ensures CountStatus(AppContext.SeedIssues, Resolved) == 1
  {
    SeedStatuses();
    OneOfEach(AppContext.SeedIssues);
  }

  lemma OneOfEach(s: seq<Issue>)
    requires Project(s, StatusOf) == [Pending, InProgress, Resolved]
    ensures CountStatus(s, Pending) == 1
    ensures CountStatus(s, InProgress) == 1
    ensures CountStatus(s, Resolved) == 1
  {
    assert multiset(Project(s, StatusOf)) == multiset{Pending, InProgress, Resolved};
    CountStatusByKey(s, Pending);
    CountStatusByKey(s, InProgress);
    CountStatusByKey(s, Resolved);
  }

  lemma SeedStatuses()
    ensures Project(AppContext.SeedIssues, StatusOf) == [Pending, InProgress, Resolved]
  {
  }

  /** On the three seed issues: categories `{"Infrastructure": 2,
      "Maintenance": 1}`. */
  lemma SeedCategoryBreakdown()
    ensures Breakdown(AppContext.SeedIssues, CategoryOf)
            == map["Infrastructure" := 2, "Maintenance" := 1]
  {
    SeedCategories();
    TallyOfThree("Infrastructure", "Maintenance");
  }

  lemma TallyOfThree(a: string, b: string)
    requires a != b
    ensures Tally([a, b, a]) == map[a := 2, b := 1]
  {
    var ks := [a, b, a];
    assert multiset(ks) == multiset{a, a, b};
    assert Tally(ks).Keys == {a, b};
  }

  lemma SeedCategories()
    ensures Project(AppContext.SeedIssues, CategoryOf)
            == ["Infrastructure", "Maintenance", "Infrastructure"]
  {
  }
}
