/** Entities of the campus issue tracker: users, issues and the application
    state held by the store. Timestamps are millisecond ticks (what
    `Date.getTime()` returns) instead of ISO-8601 strings. */
module Types {

  datatype Option<+T> = None | Some(value: T) {
    function GetOr(default: T): T {
      match this
      case Some(v) => v
      case None => default
    }
  }

  datatype Result<+T, +E> = Ok(value: T) | Err(error: E)

  /** `first` if it is present, otherwise `second`: the value a later spread
      (`{...a, ...b}`) leaves for one optional field. */
  function Or<T>(first: Option<T>, second: Option<T>): (r: Option<T>)
    ensures r.Some? <==> first.Some? || second.Some?
    ensures first.Some? ==> r == first
    ensures first.None? ==> r == second
  {
    if first.Some? then first else second
  }

  datatype Role = Student | Admin

  datatype Status = Pending | InProgress | Resolved

  datatype Priority = Low | Medium | High

  /** The wire names of the statuses, as the issue records and the filter
      drop-downs spell them. */
  function StatusName(s: Status): string {
    match s
    case Pending => "pending"
    case InProgress => "in-progress"
    case Resolved => "resolved"
  }

  /** Reads a status back from its wire name. */
  function ParseStatus(name: string): (r: Option<Status>)
    ensures r.Some? ==> StatusName(r.value) == name
  {
    if name == "pending" then Some(Pending)
    else if name == "in-progress" then Some(InProgress)
    else if name == "resolved" then Some(Resolved)
    else None
  }

  lemma StatusNameRoundTrip(s: Status)
    ensures ParseStatus(StatusName(s)) == Some(s)
    ensures StatusName(s) != "all" && StatusName(s) != ""
  {
  }

  function PriorityName(p: Priority): string {
    match p
    case Low => "low"
    case Medium => "medium"
    case High => "high"
  }

  lemma PriorityNameInjective(p: Priority, q: Priority)
    ensures PriorityName(p) == PriorityName(q) <==> p == q
    ensures PriorityName(p) != "all"
  {
  }

  datatype User = User(
    id: string,
    email: string,
    name: string,
    role: Role,
    rollNo: Option<string>,
    department: Option<string>)

  datatype Issue = Issue(
    id: string,
    title: string,
    description: string,
    category: string,
    location: string,
    status: Status,
    priority: Priority,
    studentId: string,
    studentName: string,
    studentRollNo: string,
    studentDepartment: string,
    assignedTo: Option<string>,
    adminRemarks: Option<string>,
    imageUrl: Option<string>,
    createdAt: nat,
    updatedAt: nat)

  datatype AuthState = AuthState(user: Option<User>, isAuthenticated: bool)

  datatype AppState = AppState(auth: AuthState, issues: seq<Issue>)

  /** The store's own invariant: the session flag is raised exactly when a
      user is recorded. */
  predicate AuthConsistent(a: AuthState) {
    a.isAuthenticated <==> a.user.Some?
  }
}
