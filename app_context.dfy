/** The application store: a reducer over `{auth, issues}` with five
    actions, and the provider operations built on it (`login`, `logout`,
    `register`, `createIssue`, `updateIssue`, `getStudentIssues`). Every
    clock reading is a parameter. */
module AppContext {
  import opened Types
  import opened Seqs

  // ---------------------------------------------------------------------
  // Partial updates

  /** `Partial<Issue>`: every field is either absent or a replacement. */
  datatype Patch = Patch(
    id: Option<string>,
    title: Option<string>,
    description: Option<string>,
    category: Option<string>,
    location: Option<string>,
    status: Option<Status>,
    priority: Option<Priority>,
    studentId: Option<string>,
    studentName: Option<string>,
    studentRollNo: Option<string>,
    studentDepartment: Option<string>,
    assignedTo: Option<string>,
    adminRemarks: Option<string>,
    imageUrl: Option<string>,
    createdAt: Option<nat>,
    updatedAt: Option<nat>)

  const EmptyPatch := Patch(None, None, None, None, None, None, None, None,
                            None, None, None, None, None, None, None, None)

  /** `{ ...issue, ...updates, updatedAt: now }`. */
  function Merge(i: Issue, u: Patch, now: nat): Issue {
    Issue(
      u.id.GetOr(i.id),
      u.title.GetOr(i.title),
      u.description.GetOr(i.description),
      u.category.GetOr(i.category),
      u.location.GetOr(i.location),
      u.status.GetOr(i.status),
      u.priority.GetOr(i.priority),
      u.studentId.GetOr(i.studentId),
      u.studentName.GetOr(i.studentName),
      u.studentRollNo.GetOr(i.studentRollNo),
      u.studentDepartment.GetOr(i.studentDepartment),
      Or(u.assignedTo, i.assignedTo),
      Or(u.adminRemarks, i.adminRemarks),
      Or(u.imageUrl, i.imageUrl),
      u.createdAt.GetOr(i.createdAt),
      now)
  }

  /** `j` carries every field that `u` supplies (its `updatedAt` aside). */
  predicate Carries(j: Issue, u: Patch) {
    && (u.id.Some? ==> j.id == u.id.value)
    && (u.title.Some? ==> j.title == u.title.value)
    && (u.description.Some? ==> j.description == u.description.value)
    && (u.category.Some? ==> j.category == u.category.value)
    && (u.location.Some? ==> j.location == u.location.value)
    && (u.status.Some? ==> j.status == u.status.value)
    && (u.priority.Some? ==> j.priority == u.priority.value)
    && (u.studentId.Some? ==> j.studentId == u.studentId.value)
    && (u.studentName.Some? ==> j.studentName == u.studentName.value)
    && (u.studentRollNo.Some? ==> j.studentRollNo == u.studentRollNo.value)
    && (u.studentDepartment.Some? ==> j.studentDepartment == u.studentDepartment.value)
    && (u.assignedTo.Some? ==> j.assignedTo == u.assignedTo)
    && (u.adminRemarks.Some? ==> j.adminRemarks == u.adminRemarks)
    && (u.imageUrl.Some? ==> j.imageUrl == u.imageUrl)
    && (u.createdAt.Some? ==> j.createdAt == u.createdAt.value)
  }

  /** `j` agrees with `i` on every field that `u` does not supply (the
      `updatedAt` stamp aside). */
  predicate KeepsAbsent(i: Issue, j: Issue, u: Patch) {
    && (u.id.None? ==> j.id == i.id)
    && (u.title.None? ==> j.title == i.title)
    && (u.description.None? ==> j.description == i.description)
    && (u.category.None? ==> j.category == i.category)
    && (u.location.None? ==> j.location == i.location)
    && (u.status.None? ==> j.status == i.status)
    && (u.priority.None? ==> j.priority == i.priority)
    && (u.studentId.None? ==> j.studentId == i.studentId)
    && (u.studentName.None? ==> j.studentName == i.studentName)
    && (u.studentRollNo.None? ==> j.studentRollNo == i.studentRollNo)
    && (u.studentDepartment.None? ==> j.studentDepartment == i.studentDepartment)
    && (u.assignedTo.None? ==> j.assignedTo == i.assignedTo)
    && (u.adminRemarks.None? ==> j.adminRemarks == i.adminRemarks)
    && (u.imageUrl.None? ==> j.imageUrl == i.imageUrl)
    && (u.createdAt.None? ==> j.createdAt == i.createdAt)
  }

  /** The merged issue takes every supplied field, keeps every absent one,
      and is stamped `now` whatever `updatedAt` the patch carried. */
  lemma MergeSpec(i: Issue, u: Patch, now: nat)
    ensures Carries(Merge(i, u, now), u)
    ensures KeepsAbsent(i, Merge(i, u, now), u)
    ensures Merge(i, u, now).updatedAt == now
  {
  }

  /** Those three properties determine the merged issue completely. */
  lemma MergeUnique(i: Issue, u: Patch, now: nat, j: Issue)
    requires Carries(j, u) && KeepsAbsent(i, j, u) && j.updatedAt == now
    ensures j == Merge(i, u, now)
  {
  }

  /** The later of two patches wins field by field. */
  function Then(u1: Patch, u2: Patch): Patch {
    Patch(
      Or(u2.id, u1.id), Or(u2.title, u1.title), Or(u2.description, u1.description),
      Or(u2.category, u1.category), Or(u2.location, u1.location), Or(u2.status, u1.status),
      Or(u2.priority, u1.priority), Or(u2.studentId, u1.studentId),
      Or(u2.studentName, u1.studentName), Or(u2.studentRollNo, u1.studentRollNo),
      Or(u2.studentDepartment, u1.studentDepartment), Or(u2.assignedTo, u1.assignedTo),
      Or(u2.adminRemarks, u1.adminRemarks), Or(u2.imageUrl, u1.imageUrl),
      Or(u2.createdAt, u1.createdAt), Or(u2.updatedAt, u1.updatedAt))
  }

  /** Two merges in a row are one merge of the combined patch at the later
      time; in particular re-applying a patch changes nothing, and the empty
      patch only refreshes the stamp. */
  lemma MergeAlgebra(i: Issue, u1: Patch, u2: Patch, t1: nat, t2: nat)
    ensures Merge(Merge(i, u1, t1), u2, t2) == Merge(i, Then(u1, u2), t2)
    ensures Merge(Merge(i, u1, t1), u1, t1) == Merge(i, u1, t1)
    ensures Merge(i, EmptyPatch, t1) == i.(updatedAt := t1)
  {
    assert Then(u1, u1) == u1;
  }

  // ---------------------------------------------------------------------
  // The reducer

  datatype Action =
    | Login(user: User)
    | Logout
    | SetIssues(payload: seq<Issue>)
    | AddIssue(issue: Issue)
    | UpdateIssue(id: string, updates: Patch)

  /** `state.issues.map(issue => issue.id === id ? merged : issue)`. */
  function UpdateWhere(s: seq<Issue>, id: string, u: Patch, now: nat): (r: seq<Issue>)
    ensures |r| == |s|
    ensures forall k :: 0 <= k < |s| && s[k].id != id ==> r[k] == s[k]
    ensures forall k :: 0 <= k < |s| && s[k].id == id ==> r[k] == Merge(s[k], u, now)
  {
    if s == [] then []
    else [if s[0].id == id then Merge(s[0], u, now) else s[0]] + UpdateWhere(s[1..], id, u, now)
  }

  /** `appReducer`; `now` is the clock reading that `UPDATE_ISSUE` takes. */
  function Reduce(s: AppState, a: Action, now: nat): AppState {
    match a
    case Login(user) => s.(auth := AuthState(Some(user), true))
    case Logout => s.(auth := AuthState(None, false))
    case SetIssues(payload) => s.(issues := payload)
    case AddIssue(issue) => s.(issues := s.issues + [issue])
    case UpdateIssue(id, updates) => s.(issues := UpdateWhere(s.issues, id, updates, now))
  }

  const InitialState := AppState(AuthState(None, false), [])

  /** What each action changes and what it leaves alone. */
  lemma ReduceFrame(s: AppState, a: Action, now: nat)
    ensures a.Login? ==> Reduce(s, a, now) == AppState(AuthState(Some(a.user), true), s.issues)
    ensures a.Logout? ==> Reduce(s, a, now) == AppState(AuthState(None, false), s.issues)
    ensures a.SetIssues? ==> Reduce(s, a, now) == AppState(s.auth, a.payload)
    ensures a.AddIssue? ==> var r := Reduce(s, a, now).issues;
      && Reduce(s, a, now).auth == s.auth
      && |r| == |s.issues| + 1 && r[|s.issues|] == a.issue && r[..|s.issues|] == s.issues
    ensures a.UpdateIssue? ==> Reduce(s, a, now).auth == s.auth
    ensures !a.UpdateIssue? ==> forall t: nat :: Reduce(s, a, t) == Reduce(s, a, now)
  {
    if a.AddIssue? {
      assert (s.issues + [a.issue])[..|s.issues|] == s.issues;
    }
  }

  /** Every action keeps the session flag in step with the recorded user. */
  lemma ReduceKeepsAuthConsistent(s: AppState, a: Action, now: nat)
    requires AuthConsistent(s.auth)
    ensures AuthConsistent(Reduce(s, a, now).auth)
  {
  }

  /** An update for an id no issue carries leaves the sequence as it was. */
  lemma {:induction false} UpdateUnknownId(s: seq<Issue>, id: string, u: Patch, now: nat)
    requires forall x :: x in s ==> x.id != id
    ensures UpdateWhere(s, id, u, now) == s
  {
    if s != [] {
      UpdateUnknownId(s[1..], id, u, now);
    }
  }

  /** Applying the same update twice at the same time gives the state the
      first application gave, even when the patch renames the issue. */
  lemma UpdateIdempotent(s: seq<Issue>, id: string, u: Patch, now: nat)
    ensures UpdateWhere(UpdateWhere(s, id, u, now), id, u, now) == UpdateWhere(s, id, u, now)
  {
    var r := UpdateWhere(s, id, u, now);
    var r2 := UpdateWhere(r, id, u, now);
    forall k | 0 <= k < |s|
      ensures r2[k] == r[k]
    {
      if s[k].id == id {
        MergeAlgebra(s[k], u, u, now, now);
      }
    }
  }

  /** With a clock that does not run backwards, an update never moves an
      `updatedAt` stamp back. */
  lemma UpdateStampsForward(s: seq<Issue>, id: string, u: Patch, now: nat)
    requires forall x :: x in s ==> x.updatedAt <= now
    ensures forall k :: 0 <= k < |s| ==> s[k].updatedAt <= UpdateWhere(s, id, u, now)[k].updatedAt
  {
    forall k | 0 <= k < |s|
      ensures s[k].updatedAt <= UpdateWhere(s, id, u, now)[k].updatedAt
    {
      assert s[k] in s;
    }
  }

  // ---------------------------------------------------------------------
  // Credentials

  /** A record of the credential table: a user and the password. */
  datatype Credential = Credential(user: User, password: string)

  datatype LoginError = InvalidCredentials

  predicate CredentialMatches(c: Credential, email: string, password: string) {
    c.user.email == email && c.password == password
  }

  /** `mockUsers.find(u => u.email === email && u.password === password)`,
      returned without its password. */
  function Authenticate(creds: seq<Credential>, email: string, password: string): (r: Result<User, LoginError>)
    ensures r.Ok? <==> exists c :: c in creds && CredentialMatches(c, email, password)
    ensures r.Ok? ==> (exists k :: 0 <= k < |creds| && r.value == creds[k].user
                          && CredentialMatches(creds[k], email, password)
                          && forall j :: 0 <= j < k ==> !CredentialMatches(creds[j], email, password))
  {
    if creds == [] then Err(InvalidCredentials)
    else if CredentialMatches(creds[0], email, password) then Ok(creds[0].user)
    else
      var r := Authenticate(creds[1..], email, password);
      assert forall c :: c in creds <==> c == creds[0] || c in creds[1..];
      assert r.Ok? ==> (exists k :: 0 < k < |creds| && r.value == creds[k].user
                          && CredentialMatches(creds[k], email, password)
                          && forall j :: 0 <= j < k ==> !CredentialMatches(creds[j], email, password));
      r
  }

  /** Appending a credential can only answer logins no earlier record
      answers: the first matching record wins. */
  lemma {:induction false} AuthenticateAppend(creds: seq<Credential>, c: Credential, email: string, password: string)
    ensures Authenticate(creds + [c], email, password) ==
      if Authenticate(creds, email, password).Ok? then Authenticate(creds, email, password)
      else if CredentialMatches(c, email, password) then Ok(c.user)
      else Err(InvalidCredentials)
  {
    if creds != [] {
      assert (creds + [c])[1..] == creds[1..] + [c];
      AuthenticateAppend(creds[1..], c, email, password);
    }
  }

  /** The `register` form's fields. */
  datatype Registration = Registration(
    email: string,
    name: string,
    password: string,
    rollNo: Option<string>,
    department: Option<string>)

  /** The user `register` creates: always a student, with the id the clock gave. */
  function RegisteredUser(reg: Registration, newId: string): (u: User)
    ensures u.role == Student && u.id == newId
    ensures u.email == reg.email && u.name == reg.name
  {
    User(newId, reg.email, reg.name, Student, reg.rollNo, reg.department)
  }

  /** After `register`, logging in with the same email and password
      succeeds; since there is no uniqueness check, it yields the new user
      only if no older record already answers that pair. */
  lemma RegisterThenLogin(creds: seq<Credential>, reg: Registration, newId: string)
    ensures var after := creds + [Credential(RegisteredUser(reg, newId), reg.password)];
      && Authenticate(after, reg.email, reg.password).Ok?
      && Authenticate(after, reg.email, reg.password) ==
           if Authenticate(creds, reg.email, reg.password).Ok?
           then Authenticate(creds, reg.email, reg.password)
           else Ok(RegisteredUser(reg, newId))
  {
    AuthenticateAppend(creds, Credential(RegisteredUser(reg, newId), reg.password), reg.email, reg.password);
  }

  // ---------------------------------------------------------------------
  // Issue creation and per-student view

  /** The payload `createIssue` receives (an untyped object): the report
      form's fields, and possibly fields that the spread then overrides. */
  datatype Draft = Draft(
    id: Option<string>,
    title: string,
    description: string,
    category: string,
    location: string,
    status: Option<Status>,
    priority: Priority,
    studentId: string,
    studentName: string,
    studentRollNo: string,
    studentDepartment: string,
    assignedTo: Option<string>,
    adminRemarks: Option<string>,
    imageUrl: Option<string>,
    createdAt: Option<nat>,
    updatedAt: Option<nat>)

  /** `{ id: generated, ...draft, status: 'pending', createdAt: t1, updatedAt: t2 }`:
      an `id` in the draft overrides the generated one; the status and both
      stamps are forced. The two stamps are two separate clock readings. */
  function NewIssue(d: Draft, generatedId: string, createdNow: nat, updatedNow: nat): (i: Issue)
    ensures i.status == Pending
    ensures i.createdAt == createdNow && i.updatedAt == updatedNow
    ensures d.id.None? ==> i.id == generatedId
    ensures d.id.Some? ==> i.id == d.id.value
    ensures && i.title == d.title && i.description == d.description
            && i.category == d.category && i.location == d.location
            && i.priority == d.priority
    ensures && i.studentId == d.studentId && i.studentName == d.studentName
            && i.studentRollNo == d.studentRollNo && i.studentDepartment == d.studentDepartment
    ensures i.assignedTo == d.assignedTo && i.adminRemarks == d.adminRemarks && i.imageUrl == d.imageUrl
  {
    Issue(d.id.GetOr(generatedId), d.title, d.description, d.category, d.location,
          Pending, d.priority, d.studentId, d.studentName, d.studentRollNo,
          d.studentDepartment, d.assignedTo, d.adminRemarks, d.imageUrl,
          createdNow, updatedNow)
  }

  /** Whatever status and stamps the draft carries are overridden. */
  lemma NewIssueIgnoresForcedFields(d: Draft, s: Option<Status>, c: Option<nat>, u: Option<nat>,
                                    generatedId: string, t1: nat, t2: nat)
    ensures NewIssue(d.(status := s, createdAt := c, updatedAt := u), generatedId, t1, t2)
         == NewIssue(d, generatedId, t1, t2)
    ensures NewIssue(d, generatedId, t1, t2).createdAt == NewIssue(d, generatedId, t1, t2).updatedAt <==> t1 == t2
  {
  }

  /** `getStudentIssues`: the student's issues in store order. */
  function StudentIssues(issues: seq<Issue>, studentId: string): (r: seq<Issue>)
    ensures forall x :: x in r <==> x in issues && x.studentId == studentId
    ensures Subseq(r, issues)
  {
    FilterIsSubseq(issues, (x: Issue) => x.studentId == studentId);
    Filter(issues, (x: Issue) => x.studentId == studentId)
  }

  /** A newly created issue shows up last in its student's list, pending,
      and every other student's list is unchanged. */
  lemma CreatedIssueListed(issues: seq<Issue>, d: Draft, generatedId: string, t1: nat, t2: nat, other: string)
    ensures var x := NewIssue(d, generatedId, t1, t2);
      && StudentIssues(issues + [x], d.studentId) == StudentIssues(issues, d.studentId) + [x]
      && x.status == Pending
      && (other != d.studentId ==> StudentIssues(issues + [x], other) == StudentIssues(issues, other))
  {
    var x := NewIssue(d, generatedId, t1, t2);
    FilterAppend(issues, [x], (y: Issue) => y.studentId == d.studentId);
    FilterAppend(issues, [x], (y: Issue) => y.studentId == other);
  }

  // ---------------------------------------------------------------------
  // Seed data

  const StudentAccount := User("1", "student@college.edu", "John Doe", Student,
                               Some("CS21001"), Some("Computer Science"))
  const AdminAccount := User("2", "admin@college.edu", "Dr. Sarah Smith", Admin, None, None)

  const SeedCredentials := [Credential(StudentAccount, "student123"),
                            Credential(AdminAccount, "admin123")]

  /** The three sample issues installed when storage holds none; stamps are
      milliseconds since the Unix epoch. */
  const SeedIssues := [
    Issue("1", "Broken WiFi in Library",
          "The WiFi connection in the main library is extremely slow and keeps disconnecting. This is affecting students' ability to research and complete assignments.",
          "Infrastructure", "Main Library - 2nd Floor", Pending, High,
          "1", "John Doe", "CS21001", "Computer Science", None, None, None,
          1705311000000, 1705311000000),
    Issue("2", "Leaking Ceiling in Classroom",
          "There is water leaking from the ceiling in Room 201. It started yesterday after the rain and is getting worse.",
          "Maintenance", "Academic Block A - Room 201", InProgress, Medium,
          "1", "John Doe", "CS21001", "Computer Science", Some("Maintenance Team"),
          Some("Maintenance team has been notified. Repair scheduled for tomorrow."), None,
          1705242000000, 1705313700000),
    Issue("3", "Parking Space Shortage",
          "There are insufficient parking spaces for students. Many students have to park far away from campus.",
          "Infrastructure", "Main Parking Area", Resolved, Low,
          "1", "John Doe", "CS21001", "Computer Science", Some("Campus Administration"),
          Some("Additional parking spaces have been allocated in the north campus."), None,
          1704884400000, 1705163400000)
  ]

  /** The seed accounts log in with their own passwords and with nothing else. */
  lemma SeedLogins(email: string, password: string)
    ensures Authenticate(SeedCredentials, "student@college.edu", "student123") == Ok(StudentAccount)
    ensures Authenticate(SeedCredentials, "admin@college.edu", "admin123") == Ok(AdminAccount)
    ensures Authenticate(SeedCredentials, "student@college.edu", "admin123").Err?
    ensures Authenticate(SeedCredentials, email, password).Ok? ==>
      (email, password) == ("student@college.edu", "student123") || (email, password) == ("admin@college.edu", "admin123")
  {
  }

  /** All three seed issues belong to student "1", in their original order. */
  lemma SeedStudentIssues()
    ensures StudentIssues(SeedIssues, "1") == SeedIssues
  {
    FilterAll(SeedIssues, (x: Issue) => x.studentId == "1");
  }

  // ---------------------------------------------------------------------
  // The provider

  /** The provider's state: the reducer-held state and the module-level
      credential table that `register` pushes onto. */
  class Store {
    var state: AppState
    var creds: seq<Credential>

    ghost predicate Valid()
      reads this
    {
      AuthConsistent(state.auth)
    }

    constructor ()
      ensures Valid()
      ensures state == InitialState && creds == SeedCredentials
    {
      state := InitialState;
      creds := SeedCredentials;
    }

    /** `dispatch(action)`. */
    method Dispatch(a: Action, now: nat)
      requires Valid()
      modifies this`state
      ensures Valid()
      ensures state == Reduce(old(state), a, now)
    {
      ReduceKeepsAuthConsistent(state, a, now);
      state := Reduce(state, a, now);
    }

    /** The start-up effect: restore the stored user if there is one, then
        install the stored issues, or the seed issues when none are stored. */
    method Startup(storedAuth: Option<User>, storedIssues: Option<seq<Issue>>)
      requires Valid()
      modifies this`state
      ensures Valid()
      ensures state.auth == if storedAuth.Some? then AuthState(storedAuth, true) else old(state.auth)
      ensures state.issues == storedIssues.GetOr(SeedIssues)
    {
      if storedAuth.Some? {
        // the reducer reads the clock only for UPDATE_ISSUE
        Dispatch(Action.Login(storedAuth.value), 0);
      }
      if storedIssues.Some? {
        Dispatch(SetIssues(storedIssues.value), 0);
      } else {
        Dispatch(SetIssues(SeedIssues), 0);
      }
    }

    /** `login`: on a match, log the user in; otherwise fail before any
        dispatch, leaving the state as it was. */
    method Login(email: string, password: string) returns (r: Result<User, LoginError>)
      requires Valid()
      modifies this`state
      ensures Valid()
      ensures r == Authenticate(creds, email, password)
      ensures r.Ok? ==> state == AppState(AuthState(Some(r.value), true), old(state.issues))
      ensures r.Err? ==> state == old(state)
    {
      r := Authenticate(creds, email, password);
      if r.Ok? {
        Dispatch(Action.Login(r.value), 0);
      }
    }

    method Logout()
      requires Valid()
      modifies this`state
      ensures Valid()
      ensures state == AppState(AuthState(None, false), old(state.issues))
    {
      Dispatch(Action.Logout, 0);
    }

    /** `register`: append the credential with no uniqueness check and log
        the new student in. */
    method Register(reg: Registration, newId: string) returns (u: User)
      requires Valid()
      modifies this
      ensures Valid()
      ensures u == RegisteredUser(reg, newId)
      ensures creds == old(creds) + [Credential(u, reg.password)]
      ensures state == AppState(AuthState(Some(u), true), old(state.issues))
    {
      u := RegisteredUser(reg, newId);
      creds := creds + [Credential(u, reg.password)];
      Dispatch(Action.Login(u), 0);
    }

    /** `createIssue`: stamp the draft and append it. */
    method CreateIssue(d: Draft, generatedId: string, createdNow: nat, updatedNow: nat)
      requires Valid()
      modifies this`state
      ensures Valid()
      ensures state == AppState(old(state.auth), old(state.issues) + [NewIssue(d, generatedId, createdNow, updatedNow)])
    {
      Dispatch(AddIssue(NewIssue(d, generatedId, createdNow, updatedNow)), updatedNow);
    }

    /** `updateIssue`: merge the patch into every issue with that id. */
    method UpdateIssue(id: string, updates: Patch, now: nat)
      requires Valid()
      modifies this`state
      ensures Valid()
      ensures state == AppState(old(state.auth), UpdateWhere(old(state.issues), id, updates, now))
    {
      Dispatch(Action.UpdateIssue(id, updates), now);
    }

    /** `getStudentIssues`: reads the state, changes nothing. */
    method GetStudentIssues(studentId: string) returns (r: seq<Issue>)
      ensures forall x :: x in r <==> x in state.issues && x.studentId == studentId
      ensures Subseq(r, state.issues)
      ensures r == StudentIssues(state.issues, studentId)
    {
      r := StudentIssues(state.issues, studentId);
    }
  }
}
