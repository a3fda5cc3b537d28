# FixMyCampus issue tracker — a Dafny model

FixMyCampus is a small web application in which students report campus
problems (broken equipment, parking, maintenance) and administrators
triage, assign and resolve them. This project models its core in Dafny:

* **The store** (`app_context.dfy`, module `AppContext`): the reducer
  over `{auth, issues}` with its five actions (`LOGIN`, `LOGOUT`,
  `SET_ISSUES`, `ADD_ISSUE`, `UPDATE_ISSUE`), the partial-update merge, and
  the provider operations `login`, `logout`, `register`, `createIssue`,
  `updateIssue` and `getStudentIssues`, as the methods of a `Store` class
  whose `state` and credential table `creds` they update. The start-up
  choice between stored issues and the three seed issues is the method
  `Store.Startup`, with the stored values as parameters.
* **The derived views** the screens compute from the issue list:
  status counts and percentages, the per-key dictionaries built with
  `reduce`, `Object.entries` + descending `sort` + `slice` (`issue_stats.dfy`,
  `analytics.dfy`, `admin_dashboard.dfy`), the administrator's and the
  student's filter and search predicates (`issue_management.dfy`,
  `my_issues.dfy`), the student's dashboard (`student_dashboard.dfy`), and
  the administrator's inline edit form as an `EditSession` class.
* Shared building blocks: `types.dfy` (the entities), `seqs.dfy` (filter,
  subsequence, de-duplication in first-occurrence order, counting into a
  dictionary, a stable descending insertion sort and top-N), `text.dfy`
  (ASCII lower-casing and substring search).

Conventions of the model:

* Timestamps are natural-number millisecond ticks. Every clock reading is
  a parameter: `now` for `UPDATE_ISSUE`, and two separate readings
  `createdNow`, `updatedNow` for `createIssue`, which calls
  `new Date().toISOString()` twice. The stamps of a new issue are
  equal only when the two readings are (`NewIssueIgnoresForcedFields`).
  Ids produced by `Date.now()` are parameters too.
* Drop-down filters stay strings (`'all'` or a value), as in the screens;
  statuses and priorities are closed enumerations with their wire names.
* Percentages and the average resolution time are exact reals.
* `Object.entries` of a dictionary filled by a fold lists its keys in
  order of first insertion, which is `Distinct` of the keys; JavaScript's
  `sort` is stable, and so is the insertion sort used here.
* The edit form's status box only ever holds one of the three status
  names (its drop-down offers no other), so the patch `handleSave`
  sends reads the status back with `ParseStatus`; `EditSession.Valid`
  records this.

Behaviour worth knowing that the proofs make explicit:

* Saving an edit form left as it was seeded is not a no-op: the issue is
  re-stamped, and a missing assignee or remark becomes the empty string
  (`IssueManagement.SaveUnchangedForm`).
* `register` performs no uniqueness check; logging in afterwards with the
  same email and password yields the older account if one already
  answers that pair (`AppContext.RegisterThenLogin`).
* An update whose id matches no issue leaves the list unchanged and
  raises no error (`AppContext.UpdateUnknownId`).

## Model

| member | source | states |
|---|---|---|
| Types.ParseStatus | src/types/index.ts:16 | a status read back from a name has exactly that name |
| Types.StatusNameRoundTrip | src/types/index.ts:16 | every status's wire name reads back as that status, and is neither `'all'` nor empty |
| Types.PriorityNameInjective | src/types/index.ts:17 | two priorities have the same name iff they are equal; no priority is called `'all'` |
| Types.Or | src/contexts/AppContext.tsx:50 | the later spread of an optional field wins when present, otherwise the earlier value stays, whether present or absent |
| Seqs.Filter | src/contexts/AppContext.tsx:210 | `filter` keeps exactly the elements satisfying the predicate and never lengthens |
| Seqs.FilterIsSubseq | src/contexts/AppContext.tsx:210 | `filter` keeps the original order (its result is a subsequence) |
| Seqs.SubseqTrans | src/components/Student/MyIssues.tsx:8-20 | a subsequence of a subsequence is a subsequence, so filtering a filtered list keeps store order |
| Seqs.FilterAppend | src/contexts/AppContext.tsx:43 | filtering a list with an appended element filters the two parts separately |
| Seqs.FilterAll | src/components/Admin/IssueManagement.tsx:22-31 | a filter that admits everything returns its input |
| Seqs.FilterMonotone | src/components/Admin/AdminDashboard.tsx:17 | a stronger predicate keeps no more elements |
| Seqs.Distinct | src/components/Admin/IssueManagement.tsx:20 | `[...new Set(s)]` has no repeats and exactly the elements of `s` |
| Seqs.DistinctFirstOccurrenceOrder | src/components/Admin/IssueManagement.tsx:20 | the distinct values come in order of first occurrence |
| Seqs.PermutationNoDuplicates | src/components/Admin/Analytics.tsx:40 | reordering a list without repeats leaves it without repeats |
| Seqs.Tally | src/components/Admin/Analytics.tsx:28-31 | the counting fold has a key for exactly the values that occur, each mapped to its number of occurrences |
| Seqs.Entries | src/components/Admin/Analytics.tsx:33 | `Object.entries` pairs each key, in the given order, with its count |
| Seqs.TallyEntriesSum | src/components/Admin/Analytics.tsx:28-33 | the counts of the entries add up to the number of values folded |
| Seqs.SortDesc | src/components/Admin/Analytics.tsx:40 | sorting by a descending comparator gives a non-increasing permutation of its input |
| Seqs.InsertSorted | src/components/Admin/Analytics.tsx:40 | inserting into a non-increasing list keeps it non-increasing |
| Seqs.TopN | src/components/Admin/AdminDashboard.tsx:25-27 | sort then `slice(0, n)` has `min(n, length)` elements, is non-increasing, is drawn from the input, and is a permutation of it when the input has at most `n` |
| Seqs.TopNLeavesSmaller | src/components/Admin/AdminDashboard.tsx:25-27 | an element the slice leaves out ranks no higher than the last one kept, and the slice is then full |
| Text.Lower | src/components/Admin/IssueManagement.tsx:26 | `toLowerCase` keeps the length and lower-cases each ASCII letter, nothing else |
| Text.LowerIdempotent | src/components/Admin/IssueManagement.tsx:26 | lower-casing twice equals lower-casing once |
| Text.ContainsIffOccurs | src/components/Admin/IssueManagement.tsx:26 | `includes` holds iff the needle occurs at some position of the text |
| Text.ContainsEmpty | src/components/Admin/IssueManagement.tsx:26 | the empty string occurs in every text |
| Text.IncludesCaseInsensitive | src/components/Admin/IssueManagement.tsx:26-29 | the search ignores the case of both text and term, and an empty term matches any text |
| AppContext.MergeSpec | src/contexts/AppContext.tsx:50 | the merged issue takes every field the update supplies, keeps every absent one, and is stamped `now` even if the update carried an `updatedAt` |
| AppContext.MergeUnique | src/contexts/AppContext.tsx:50 | those three facts determine the merged issue |
| AppContext.MergeAlgebra | src/contexts/AppContext.tsx:45-53 | two merges equal one merge of the combined update at the later time; re-applying an update changes nothing; an empty update only re-stamps |
| AppContext.UpdateWhere | src/contexts/AppContext.tsx:48-52 | `UPDATE_ISSUE` keeps length and order, leaves every issue with another id unchanged and merges every issue with that id |
| AppContext.ReduceFrame | src/contexts/AppContext.tsx:23-57 | `LOGIN`/`LOGOUT` set the session and keep the issues; `SET_ISSUES` replaces the issues and keeps the session; `ADD_ISSUE` appends the payload after the unchanged old list; `UPDATE_ISSUE` keeps the session; only `UPDATE_ISSUE` reads the clock |
| AppContext.ReduceKeepsAuthConsistent | src/contexts/AppContext.tsx:23-57 | every action keeps `isAuthenticated` true exactly when a user is recorded |
| AppContext.UpdateUnknownId | src/contexts/AppContext.tsx:45-53 | an update for an id no issue has leaves the list identical |
| AppContext.UpdateIdempotent | src/contexts/AppContext.tsx:45-53 | repeating the same update at the same time changes nothing more |
| AppContext.UpdateStampsForward | src/contexts/AppContext.tsx:50 | with a clock at or after every stamp, an update never moves an `updatedAt` back |
| AppContext.Authenticate | src/contexts/AppContext.tsx:161-171 | login succeeds iff some credential matches both email and password exactly, and then yields the first such user |
| AppContext.AuthenticateAppend | src/contexts/AppContext.tsx:188 | appending a credential only answers logins that no earlier record answers |
| AppContext.RegisteredUser | src/contexts/AppContext.tsx:179-186 | a registered user is a student with the generated id and the form's email and name |
| AppContext.RegisterThenLogin | src/contexts/AppContext.tsx:178-192 | after registering, the same email and password log in, to the older account if one already matched |
| AppContext.NewIssue | src/contexts/AppContext.tsx:195-201 | a created issue is pending and carries the two clock readings as its stamps; it takes the draft's id when the draft has one (the spread comes after the generated id) and the generated id otherwise, and every other field from the draft |
| AppContext.NewIssueIgnoresForcedFields | src/contexts/AppContext.tsx:195-201 | a status or stamps in the payload make no difference; the stamps agree iff the two readings do |
| AppContext.StudentIssues | src/contexts/AppContext.tsx:209-211 | a student's issues are exactly the store's issues with that student id, in store order |
| AppContext.CreatedIssueListed | src/contexts/AppContext.tsx:194-211 | a created issue appears last in its student's list and leaves other students' lists unchanged |
| AppContext.SeedLogins | src/contexts/AppContext.tsx:65-82 | the two demo accounts log in with their own passwords, not with each other's, and no other email and password pair logs in |
| AppContext.SeedStudentIssues | src/contexts/AppContext.tsx:84-134 | all three seed issues belong to the demo student |
| AppContext.Store.Dispatch | src/contexts/AppContext.tsx:137 | dispatching applies the reducer to the state and keeps the session invariant |
| AppContext.Store.Startup | src/contexts/AppContext.tsx:139-155 | a stored user is logged in, and the issues become the stored ones or else the seed issues |
| AppContext.Store.Login | src/contexts/AppContext.tsx:161-171 | on a match the user is logged in with the issues unchanged; on failure the state is unchanged |
| AppContext.Store.Logout | src/contexts/AppContext.tsx:173-176 | logging out clears the session and keeps the issues |
| AppContext.Store.Register | src/contexts/AppContext.tsx:178-192 | register appends the credential and logs the new student in, issues unchanged |
| AppContext.Store.CreateIssue | src/contexts/AppContext.tsx:194-203 | the new issue is appended; session and earlier issues unchanged |
| AppContext.Store.UpdateIssue | src/contexts/AppContext.tsx:205-207 | the issues become the merge-by-id of the old ones; session unchanged |
| AppContext.Store.GetStudentIssues | src/contexts/AppContext.tsx:209-211 | returns exactly the student's issues in store order and changes nothing |
| IssueStats.Project | src/components/Admin/Analytics.tsx:28-31 | the keys of the issues, position by position |
| IssueStats.ProjectMembership | src/components/Admin/Analytics.tsx:28-31 | a key occurs iff some issue carries it |
| IssueStats.CountByKey | src/components/Admin/Analytics.tsx:28-31 | filtering by a key counts the occurrences of that key |
| IssueStats.WithStatus | src/components/Admin/Analytics.tsx:11-13 | the issues kept are exactly those with that status |
| IssueStats.CountStatus | src/components/Admin/Analytics.tsx:11-13 | a status count never exceeds the total |
| IssueStats.StatusCountsPartition | src/components/Admin/Analytics.tsx:10-13 | pending + in-progress + resolved equals the total |
| IssueStats.Percent | src/components/Admin/Analytics.tsx:37 | a share is non-negative, and at most 100 for a part of the whole |
| IssueStats.PercentSpec | src/components/Admin/Analytics.tsx:37 | a share times the whole is 100 × the part; it is 0 exactly when the part is 0 and 100 exactly when the part is the whole |
| IssueStats.GuardedPercent | src/components/Admin/Analytics.tsx:16 | a guarded share is 0 when the whole is 0, otherwise the exact share, and in [0, 100] for a part of the whole |
| IssueStats.ResolutionRate | src/components/Admin/Analytics.tsx:16 | the resolution rate is 0 with no issues, in [0, 100], and otherwise resolved/total × 100 |
| IssueStats.BreakdownSpec | src/components/Admin/Analytics.tsx:28-33 | the dictionary's keys are exactly the values that occur, each mapped to its number of issues; its entries list each key once, carry the dictionary's counts and add up to the total |
| IssueStats.TopKeysSpec | src/components/Admin/AdminDashboard.tsx:25-27 | a top-`n` slice has at most `n` entries, non-increasing counts, pairs from the dictionary, no key twice, and any key left out counts no more than the last entry shown |
| Analytics.SumResolutionDaysNonNegative | src/components/Admin/Analytics.tsx:21-25 | the summed resolution times are non-negative when no issue was last stamped before its creation |
| Analytics.Mean | src/components/Admin/Analytics.tsx:25 | a quotient times the divisor gives back the total, and is non-negative for a non-negative total |
| Analytics.AvgResolutionDays | src/components/Admin/Analytics.tsx:19-25 | the average resolution time is 0 when nothing is resolved, and otherwise the mean over the resolved issues of their resolution times |
| Analytics.AvgResolutionNonNegative | src/components/Admin/Analytics.tsx:19-25 | the average is never negative when no resolved issue was stamped before its creation |
| Analytics.StatsOf | src/components/Admin/Analytics.tsx:34-39 | one row per entry, in entry order |
| Analytics.ResolvedAtMostCount | src/components/Admin/Analytics.tsx:38 | a key's resolved count never exceeds its count |
| Analytics.KeyStatsSpec | src/components/Admin/Analytics.tsx:33-55 | one row per distinct key, no key twice, non-increasing counts; each row's count is its number of issues, its percentage that over the total, its resolved count at most its count |
| Analytics.KeyStatsKeys | src/components/Admin/Analytics.tsx:28-55 | a key has a row iff some issue carries it |
| Analytics.PriorityCountsSpec | src/components/Admin/Analytics.tsx:58-61 | a priority reads as its number of issues, 0 when none |
| Analytics.PriorityCountsSum | src/components/Admin/Analytics.tsx:58-61 | high + medium + low equals the total |
| Analytics.PriorityShare | src/components/Admin/Analytics.tsx:205-222 | a priority's share is 0 with no issues, otherwise its count over the total × 100, and always in [0, 100] |
| Analytics.SeedStatusCounts | src/contexts/AppContext.tsx:84-134 | the seed issues hold one issue of each status |
| Analytics.SeedCategoryBreakdown | src/contexts/AppContext.tsx:84-134 | the seed categories are Infrastructure twice and Maintenance once |
| AdminDashboard.RecentCount | src/components/Admin/AdminDashboard.tsx:15-17 | the recent count never exceeds the total |
| AdminDashboard.RecentCountBounds | src/components/Admin/AdminDashboard.tsx:15-17 | it is the total when every issue is recent and 0 when none is |
| AdminDashboard.RecentCountAppend | src/components/Admin/AdminDashboard.tsx:17 | a new issue adds one exactly when it is recent; one created now always counts |
| AdminDashboard.RecentCountMonotone | src/components/Admin/AdminDashboard.tsx:15-17 | as the clock advances the recent count never grows |
| AdminDashboard.TopCategoriesSpec | src/components/Admin/AdminDashboard.tsx:20-27 | at most five categories, non-increasing counts, pairs of the breakdown, no category twice, and one left out counts no more than the fifth |
| AdminDashboard.TopDepartmentsSpec | src/components/Admin/AdminDashboard.tsx:30-37 | at most three departments, with the same order, origin and left-out guarantees |
| AdminDashboard.ActiveCountSpec | src/components/Admin/AdminDashboard.tsx:179 | pending + in-progress equals the total minus the resolved |
| AdminDashboard.ActivePercentage | src/components/Admin/AdminDashboard.tsx:179 | the active share is 0 with no issues and always in [0, 100] |
| AdminDashboard.SharesComplement | src/components/Admin/AdminDashboard.tsx:173-179 | with at least one issue the resolution rate and the active share add up to 100 |
| IssueManagement.CategoriesSpec | src/components/Admin/IssueManagement.tsx:20 | the categories list has no duplicates, holds exactly the categories of the issues, in first-occurrence order |
| IssueManagement.FilteredIssuesSpec | src/components/Admin/IssueManagement.tsx:22-31 | the shown list keeps store order and holds exactly the issues passing status, priority, category and search |
| IssueManagement.DropDownsSpec | src/components/Admin/IssueManagement.tsx:23-25 | `'all'` admits every value; otherwise only the exact status or priority of that name |
| IssueManagement.NoFilterShowsAll | src/components/Admin/IssueManagement.tsx:22-31 | all drop-downs at `'all'` and an empty search show every issue |
| IssueManagement.FormOf | src/components/Admin/IssueManagement.tsx:35-39 | the seeded form's status reads back as the issue's status |
| IssueManagement.SaveSpec | src/components/Admin/IssueManagement.tsx:42-43 | saving sets status, assignee and remarks to the form's values, re-stamps the issue and changes nothing else |
| IssueManagement.SaveUnchangedForm | src/components/Admin/IssueManagement.tsx:33-43 | saving an untouched form re-stamps the issue and turns a missing assignee or remark into an empty one |
| IssueManagement.EditSession.constructor | src/components/Admin/IssueManagement.tsx:13-18 | the session starts not editing, with a blank form |
| IssueManagement.EditSession.HandleEdit | src/components/Admin/IssueManagement.tsx:33-40 | editing records the issue's id and seeds the form from the issue |
| IssueManagement.EditSession.SetStatus | src/components/Admin/IssueManagement.tsx:231 | the status box changes only the form's status |
| IssueManagement.EditSession.SetAssignedTo | src/components/Admin/IssueManagement.tsx:244 | the assignee box changes only the form's assignee |
| IssueManagement.EditSession.SetAdminRemarks | src/components/Admin/IssueManagement.tsx:254 | the remarks box changes only the form's remarks |
| IssueManagement.EditSession.HandleSave | src/components/Admin/IssueManagement.tsx:42-46 | saving sends exactly status, assignee and remarks as an update for that id, then closes the form |
| IssueManagement.EditSession.HandleCancel | src/components/Admin/IssueManagement.tsx:48-51 | cancelling closes the form and updates nothing |
| MyIssues.FilteredIssuesSpec | src/components/Student/MyIssues.tsx:8-20 | only the viewer's issues are shown, in store order, exactly those passing the status filter and the search |
| MyIssues.StatusFilterSpec | src/components/Student/MyIssues.tsx:14 | `'all'` admits every status; otherwise only the status of that name |
| MyIssues.NoFilterShowsAll | src/components/Student/MyIssues.tsx:13-20 | `'all'` and an empty search show all of the viewer's issues |
| MyIssues.EmptyStateMessage | src/components/Student/MyIssues.tsx:100-103 | the "Try adjusting" text appears iff there is a search term or a status filter; otherwise the "haven't reported" text |
| MyIssues.NothingReportedIsTrue | src/components/Student/MyIssues.tsx:95-103 | with no criteria the list is empty only when the viewer has no issues |
| StudentDashboard.StudentCountsPartition | src/components/Student/Dashboard.tsx:11-13 | the student's three status counts add up to their number of issues |
| StudentDashboard.RecentIssuesSpec | src/components/Student/Dashboard.tsx:15-17 | at most three of the student's own issues, newest first; with three or fewer all are shown |
| StudentDashboard.RecentIssuesLeftOut | src/components/Student/Dashboard.tsx:15-17 | an issue of the student's left out is no newer than the last shown, and three are shown |
| StudentDashboard.DescriptionPreview | src/components/Student/Dashboard.tsx:159 | the preview is the first `min(120, length)` characters of the description followed by `...` |
| StudentDashboard.DescriptionPreviewSpec | src/components/Student/Dashboard.tsx:159 | a description of 120 characters or fewer is shown whole, a longer one cut to 120 |

## Left out

- Browser storage and JSON: reading and writing `localStorage` and parsing its contents are I/O; `Store.Startup` takes the stored user and issues as already-parsed parameters, and the writes are not modelled.
- The clock and date handling: `Date.now()` ids, ISO-8601 strings and their parsing are replaced by natural-number ticks passed in; `setDate(getDate() - 7)` is taken as exactly seven days (no daylight-saving shift).
- Floating point and `Math.round`: percentages and the average resolution time are exact reals, and the rounded labels are not modelled.
- Unicode `toLowerCase` and `substring` on UTF-16 code units: lower-casing is on ASCII letters only, and strings are sequences of characters.
- JavaScript object key order for integer-like keys: `Object.entries` is modelled as first-insertion order for every key, which differs only for keys that look like array indices.
- Dictionary keys named after `Object.prototype` members: the counting folds start from a plain `{}`, so in the application a department called `constructor` or `toString` reads an inherited function as its starting count and `__proto__` never becomes a key; the model's `Tally` and `Breakdown` treat every key as an ordinary one.
- A student without a department: the report form stores `user.department!`, which is `undefined` for such a user and is then counted under the key `"undefined"` while the department row's resolved count stays 0; the model's `Draft` and `Issue` always carry a department string.
- Explicit `undefined` in a partial update: an update field is either absent or a value; a field present with value `undefined` is not modelled.
- Untyped payloads: `createIssue` and `register` accept `any`; the model gives them typed records, so stray extra fields are not modelled.
- React machinery: `useReducer`, `useEffect`, the context, the `useApp` guard and the `async` wrappers of `login` and `register`.
- Presentation: JSX, icons, colours, the hard-coded monthly chart data, and the Layout, LoginForm, App and ReportIssue screens.
