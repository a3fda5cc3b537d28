/** The administrator's issue list: the category drop-down, the combined
    status / priority / category / search filter, and the inline edit form
    with its edit, save and cancel handlers. */
module IssueManagement {
  import opened Types
  import opened Seqs
  import opened Text
  import opened IssueStats
  import AppContext

  // ---------------------------------------------------------------------
  // The category drop-down

  /** `[...new Set(issues.map(issue => issue.category))]`. */
  function Categories(issues: seq<Issue>): seq<string> {
    Distinct(Project(issues, CategoryOf))
  }

  /** Every category that occurs, once, in order of first appearance. */
  lemma CategoriesSpec(issues: seq<Issue>, c: string, i: nat, j: nat)
    ensures NoDuplicates(Categories(issues))
    ensures c in Categories(issues) <==> exists x :: x in issues && x.category == c
    ensures i < j < |Categories(issues)| ==>
      var ks := Project(issues, CategoryOf);
      FirstIndex(ks, Categories(issues)[i]) < FirstIndex(ks, Categories(issues)[j])
  {
    ProjectMembership(issues, CategoryOf, c);
    if i < j < |Categories(issues)| {
      DistinctFirstOccurrenceOrder(Project(issues, CategoryOf), i, j);
    }
  }

  // ---------------------------------------------------------------------
  // The filter

  /** A drop-down value admits a status: `'all'` admits every status,
      anything else only the status of that name. */
  predicate StatusAdmits(filter: string, s: Status) {
    filter == "all" || StatusName(s) == filter
  }

  predicate PriorityAdmits(filter: string, p: Priority) {
    filter == "all" || PriorityName(p) == filter
  }

  predicate CategoryAdmits(filter: string, c: string) {
    filter == "all" || c == filter
  }

  /** The search box: the term, ignoring case, occurs in the title, the
      description, the student's name or the location. */
  predicate AdminSearchMatches(i: Issue, term: string) {
    || Includes(i.title, term)
    || Includes(i.description, term)
    || Includes(i.studentName, term)
    || Includes(i.location, term)
  }

  predicate AdminMatches(i: Issue, statusFilter: string, priorityFilter: string,
                         categoryFilter: string, term: string) {
    && StatusAdmits(statusFilter, i.status)
    && PriorityAdmits(priorityFilter, i.priority)
    && CategoryAdmits(categoryFilter, i.category)
    && AdminSearchMatches(i, term)
  }

  /** `filteredIssues`. */
  function FilteredIssues(issues: seq<Issue>, statusFilter: string, priorityFilter: string,
                          categoryFilter: string, term: string): seq<Issue> {
    Filter(issues, (x: Issue) => AdminMatches(x, statusFilter, priorityFilter, categoryFilter, term))
  }

  /** The list shown keeps the store's order, and holds exactly the issues
      that pass all four conditions. */
  lemma FilteredIssuesSpec(issues: seq<Issue>, sf: string, pf: string, cf: string, term: string)
    ensures Subseq(FilteredIssues(issues, sf, pf, cf, term), issues)
    ensures forall x :: x in FilteredIssues(issues, sf, pf, cf, term) <==>
              x in issues && AdminMatches(x, sf, pf, cf, term)
  {
    FilterIsSubseq(issues, (x: Issue) => AdminMatches(x, sf, pf, cf, term));
  }

  /** `'all'` admits every value; a status or priority name admits exactly
      that value, and any other string admits nothing. */
  lemma DropDownsSpec(filter: string, s: Status, p: Priority, q: Priority)
    ensures filter == "all" ==> StatusAdmits(filter, s) && PriorityAdmits(filter, p)
    ensures filter != "all" ==> (StatusAdmits(filter, s) <==> ParseStatus(filter) == Some(s))
    ensures PriorityAdmits(PriorityName(q), p) <==> p == q
  {
    StatusNameRoundTrip(s);
    PriorityNameInjective(p, q);
  }

  /** An empty search term and `'all'` in every drop-down show every
      issue. */
  lemma NoFilterShowsAll(issues: seq<Issue>)
    ensures FilteredIssues(issues, "all", "all", "all", "") == issues
  {
    forall x | x in issues
      ensures AdminMatches(x, "all", "all", "all", "")
    {
      IncludesCaseInsensitive(x.title, "");
    }
    FilterAll(issues, (x: Issue) => AdminMatches(x, "all", "all", "all", ""));
  }

  // ---------------------------------------------------------------------
  // The edit form

  /** `editForm`: what the status drop-down and the two text boxes hold. */
  datatype EditForm = EditForm(status: string, assignedTo: string, adminRemarks: string)

  const BlankForm := EditForm("", "", "")

  /** The form `handleEdit` seeds from an issue: its status, and its
      assignee and remarks or `''` when it has none. */
  function FormOf(i: Issue): (f: EditForm)
    ensures ParseStatus(f.status) == Some(i.status)
  {
    StatusNameRoundTrip(i.status);
    EditForm(StatusName(i.status), i.assignedTo.GetOr(""), i.adminRemarks.GetOr(""))
  }

  /** The partial update `updateIssue(issueId, editForm)` sends: exactly
      status, assignee and remarks. */
  function FormPatch(f: EditForm): AppContext.Patch {
    AppContext.EmptyPatch.(status := ParseStatus(f.status),
                           assignedTo := Some(f.assignedTo),
                           adminRemarks := Some(f.adminRemarks))
  }

  /** Saving a form sets the status, the assignee and the remarks to the
      form's values, stamps the issue, and touches nothing else. */
  lemma SaveSpec(i: Issue, f: EditForm, s: Status, now: nat)
    requires ParseStatus(f.status) == Some(s)
    ensures AppContext.Merge(i, FormPatch(f), now)
            == i.(status := s, assignedTo := Some(f.assignedTo),
                  adminRemarks := Some(f.adminRemarks), updatedAt := now)
  {
  }

  /** Saving a form left as `handleEdit` seeded it is not a no-op: the issue
      is stamped, and a missing assignee or remark becomes an empty one. */
  lemma SaveUnchangedForm(i: Issue, now: nat)
    ensures AppContext.Merge(i, FormPatch(FormOf(i)), now)
            == i.(assignedTo := Some(i.assignedTo.GetOr("")),
                  adminRemarks := Some(i.adminRemarks.GetOr("")), updatedAt := now)
    ensures i.assignedTo.None? ==> AppContext.Merge(i, FormPatch(FormOf(i)), now).assignedTo == Some("")
  {
    SaveSpec(i, FormOf(i), i.status, now);
  }

  /** The component's edit state: the id of the issue being edited, if
      any, and the form. */
  class EditSession {
    var editingIssue: Option<string>
    var editForm: EditForm

    /** Not editing, the form is blank; editing, its status is one of the
        three the drop-down offers. */
    ghost predicate Valid()
      reads this
    {
      && (editingIssue.None? ==> editForm == BlankForm)
      && (editingIssue.Some? ==> ParseStatus(editForm.status).Some?)
    }

    constructor ()
      ensures Valid()
      ensures editingIssue == None && editForm == BlankForm
    {
      editingIssue := None;
      editForm := BlankForm;
    }

    /** `handleEdit(issue)`. */
    method HandleEdit(issue: Issue)
      modifies this
      ensures Valid()
      ensures editingIssue == Some(issue.id)
      ensures editForm == FormOf(issue)
    {
      editingIssue := Some(issue.id);
      editForm := FormOf(issue);
    }

    /** The status drop-down, shown only while editing. */
    method SetStatus(s: Status)
      requires Valid() && editingIssue.Some?
      modifies this`editForm
      ensures Valid()
      ensures editForm == old(editForm).(status := StatusName(s))
    {
      StatusNameRoundTrip(s);
      editForm := editForm.(status := StatusName(s));
    }

    /** The assignee text box, shown only while editing. */
    method SetAssignedTo(text: string)
      requires Valid() && editingIssue.Some?
      modifies this`editForm
      ensures Valid()
      ensures editForm == old(editForm).(assignedTo := text)
    {
      editForm := editForm.(assignedTo := text);
    }

    /** The remarks text box, shown only while editing. */
    method SetAdminRemarks(text: string)
      requires Valid() && editingIssue.Some?
      modifies this`editForm
      ensures Valid()
      ensures editForm == old(editForm).(adminRemarks := text)
    {
      editForm := editForm.(adminRemarks := text);
    }

    /** `handleSave(issueId)`, offered only on the row being edited: send
        the form as an update, then close the form. */
    method HandleSave(store: AppContext.Store, issueId: string, now: nat)
      requires Valid() && store.Valid()
      requires editingIssue == Some(issueId)
      modifies this, store`state
      ensures Valid() && store.Valid()
      ensures store.state == AppState(old(store.state.auth),
                AppContext.UpdateWhere(old(store.state.issues), issueId, FormPatch(old(editForm)), now))
      ensures editingIssue == None && editForm == BlankForm
    {
      store.UpdateIssue(issueId, FormPatch(editForm), now);
      editingIssue := None;
      editForm := BlankForm;
    }

    /** `handleCancel()`: close the form without updating anything. */
    method HandleCancel()
      modifies this
      ensures Valid()
      ensures editingIssue == None && editForm == BlankForm
    {
      editingIssue := None;
      editForm := BlankForm;
    }
  }
}
