/** Aggregates that both administrator screens compute from the issue list:
    the per-status counts, percentages, the per-key dictionaries built with
    `reduce`, and the "top N keys by count" choice. */
module IssueStats {
  import opened Types
  import opened Seqs

  // ---------------------------------------------------------------------
  // Counting by a key

  function StatusOf(x: Issue): Status { x.status }

  function CategoryOf(x: Issue): string { x.category }

  function DepartmentOf(x: Issue): string { x.studentDepartment }

  /** The count of a dictionary entry, the sort key of `Object.entries`. */
  function EntryCount(e: (string, nat)): int { e.1 }

  /** `issues.map(key)`. */
  function Project<K>(issues: seq<Issue>, key: Issue -> K): (ks: seq<K>)
    ensures |ks| == |issues|
    ensures forall i :: 0 <= i < |issues| ==> ks[i] == key(issues[i])
  {
    if issues == [] then [] else [key(issues[0])] + Project(issues[1..], key)
  }

  lemma ProjectMembership<K>(issues: seq<Issue>, key: Issue -> K, k: K)
    ensures k in Project(issues, key) <==> exists x :: x in issues && key(x) == k
  {
    var ks := Project(issues, key);
    if k in ks {
      var i :| 0 <= i < |ks| && ks[i] == k;
      assert issues[i] in issues;
    }
  }

  /** Counting with a filter that tests `key(x) == k` gives the number of
      times `k` occurs among the keys. */
  lemma {:induction false} CountByKey<K(!new)>(issues: seq<Issue>, key: Issue -> K, k: K, p: Issue -> bool)
    requires forall x :: p(x) <==> key(x) == k
    ensures |Filter(issues, p)| == multiset(Project(issues, key))[k]
  {
    if issues != [] {
      CountByKey(issues[1..], key, k, p);
      assert Project(issues, key) == [key(issues[0])] + Project(issues[1..], key);
    }
  }

  // ---------------------------------------------------------------------
  // Status counts

  /** `issues.filter(issue => issue.status === s)`. */
  function WithStatus(issues: seq<Issue>, s: Status): (r: seq<Issue>)
    ensures forall x :: x in r <==> x in issues && x.status == s
  {
    Filter(issues, (i: Issue) => i.status == s)
  }

  /** `issues.filter(issue => issue.status === s).length`. */
  function CountStatus(issues: seq<Issue>, s: Status): (n: nat)
    ensures n <= |issues|
  {
    |WithStatus(issues, s)|
  }

  lemma {:induction false} StatusMultisetSum(ss: seq<Status>)
    ensures multiset(ss)[Pending] + multiset(ss)[InProgress] + multiset(ss)[Resolved] == |ss|
  {
    if ss != [] {
      assert ss == [ss[0]] + ss[1..];
      assert multiset(ss) == multiset{ss[0]} + multiset(ss[1..]);
      StatusMultisetSum(ss[1..]);
      match ss[0]
      case Pending =>
      case InProgress =>
      case Resolved =>
    }
  }

  /** Counting by status is counting the status keys. */
  lemma CountStatusByKey(issues: seq<Issue>, s: Status)
    ensures CountStatus(issues, s) == multiset(Project(issues, StatusOf))[s]
  {
    CountByKey(issues, StatusOf, s, (i: Issue) => i.status == s);
  }

  /** Status has exactly three values, so the three counts add up to the
      number of issues. */
  lemma StatusCountsPartition(issues: seq<Issue>)
    ensures CountStatus(issues, Pending) + CountStatus(issues, InProgress)
            + CountStatus(issues, Resolved) == |issues|
  {
    CountStatusByKey(issues, Pending);
    CountStatusByKey(issues, InProgress);
    CountStatusByKey(issues, Resolved);
    StatusMultisetSum(Project(issues, StatusOf));
  }

  // ---------------------------------------------------------------------
  // Percentages

  /** `(part / whole) * 100` in exact arithmetic. */
  function Percent(part: nat, whole: nat): (r: real)
    requires 0 < whole
    ensures 0.0 <= r
    ensures part <= whole ==> r <= 100.0
  {
    (part as real / whole as real) * 100.0
  }

  /** A percentage times the whole is a hundred times the part: none of
      the whole is 0, all of it is 100. */
  lemma PercentSpec(part: nat, whole: nat)
    requires 0 < whole
    ensures Percent(part, whole) * whole as real == 100.0 * part as real
    ensures part == 0 <==> Percent(part, whole) == 0.0
    ensures part == whole <==> Percent(part, whole) == 100.0
  {
    var q := part as real / whole as real;
    assert q * whole as real == part as real;
    assert Percent(part, whole) == q * 100.0;
  }

  /** `whole > 0 ? (part / whole) * 100 : 0`. */
  function GuardedPercent(part: nat, whole: nat): (r: real)
    ensures whole == 0 ==> r == 0.0
    ensures 0 < whole ==> r == Percent(part, whole)
    ensures part <= whole ==> 0.0 <= r <= 100.0
  {
    if whole > 0 then Percent(part, whole) else 0.0
  }

  /** Share of resolved issues; zero, not a division by zero, when there
      are no issues. */
  function ResolutionRate(issues: seq<Issue>): (r: real)
    ensures |issues| == 0 ==> r == 0.0
    ensures 0.0 <= r <= 100.0
    ensures 0 < |issues| ==> r == Percent(CountStatus(issues, Resolved), |issues|)
  {
    GuardedPercent(CountStatus(issues, Resolved), |issues|)
  }

  // ---------------------------------------------------------------------
  // Breakdown dictionaries and their entries

  /** `issues.reduce((acc, x) => { acc[key(x)] = (acc[key(x)] || 0) + 1; ... }, {})`. */
  function Breakdown(issues: seq<Issue>, key: Issue -> string): map<string, nat> {
    Tally(Project(issues, key))
  }

  /** `Object.entries(breakdown)`: keys in order of first insertion. */
  function BreakdownEntries(issues: seq<Issue>, key: Issue -> string): seq<(string, nat)> {
    Entries(Breakdown(issues, key), Distinct(Project(issues, key)))
  }

  /** `issues.filter(x => key(x) === k).length`. */
  function CountWithKey(issues: seq<Issue>, key: Issue -> string, k: string): nat {
    |Filter(issues, (x: Issue) => key(x) == k)|
  }

  /** The dictionary has a key for exactly the values that occur, maps each
      to the number of issues carrying it, and its entries list every key
      once and add up to the number of issues. */
  lemma BreakdownSpec(issues: seq<Issue>, key: Issue -> string, k: string)
    ensures k in Breakdown(issues, key) <==> exists x :: x in issues && key(x) == k
    ensures Get(Breakdown(issues, key), k) == CountWithKey(issues, key, k)
    ensures |BreakdownEntries(issues, key)| == |Distinct(Project(issues, key))|
    ensures NoDuplicates(BreakdownEntries(issues, key))
    ensures forall e :: e in BreakdownEntries(issues, key) ==>
              e.0 in Breakdown(issues, key) && e.1 == Breakdown(issues, key)[e.0]
    ensures SumCounts(BreakdownEntries(issues, key)) == |issues|
  {
    ProjectMembership(issues, key, k);
    CountByKey(issues, key, k, (x: Issue) => key(x) == k);
    TallyEntriesSum(Project(issues, key));
    var es := BreakdownEntries(issues, key);
    var d := Distinct(Project(issues, key));
    forall i, j | 0 <= i < j < |es|
      ensures es[i] != es[j]
    {
      assert es[i].0 == d[i] && es[j].0 == d[j];
    }
  }

  /** `Object.entries(breakdown).sort((a, b) => b[1] - a[1]).slice(0, n)`. */
  function TopKeys(issues: seq<Issue>, key: Issue -> string, n: nat): seq<(string, nat)> {
    TopN(BreakdownEntries(issues, key), EntryCount, n)
  }

  /** The top-`n` slice: at most `n` entries, ordered by count from the
      largest, each a pair of the dictionary, no key twice; and a key of the
      dictionary left out of it counts no more than the last entry shown. */
  lemma TopKeysSpec(issues: seq<Issue>, key: Issue -> string, n: nat, k: string)
    requires 0 < n
    ensures var t := TopKeys(issues, key, n);
      && |t| <= n
      && SortedDesc(t, EntryCount)
      && NoDuplicates(t)
      && (forall e :: e in t ==> e.0 in Breakdown(issues, key) && e.1 == Breakdown(issues, key)[e.0])
      && (k in Breakdown(issues, key) && (forall e :: e in t ==> e.0 != k) ==>
            0 < |t| == n && Breakdown(issues, key)[k] <= t[n - 1].1)
  {
    var es := BreakdownEntries(issues, key);
    var m := Breakdown(issues, key);
    var t := TopKeys(issues, key, n);
    BreakdownSpec(issues, key, k);
    forall e | e in t
      ensures e in es
    {
      assert e in multiset(t);
    }
    SortedNoDuplicates(es, EntryCount, n);
    if k in m && (forall e :: e in t ==> e.0 != k) {
      var d := Distinct(Project(issues, key));
      var i := FirstIndex(d, k);
      var e := es[i];
      assert e == (k, m[k]);
      assert e in multiset(es);
      assert e !in multiset(t);
      TopNLeavesSmaller(es, EntryCount, n, e);
    }
  }

  lemma SortedNoDuplicates(es: seq<(string, nat)>, sortKey: ((string, nat)) -> int, n: nat)
    requires NoDuplicates(es)
    ensures NoDuplicates(TopN(es, sortKey, n))
  {
    var r := SortDesc(es, sortKey);
    PermutationNoDuplicates(es, r);
    var t := TopN(es, sortKey, n);
    assert t == r[..|t|];
  }
}
