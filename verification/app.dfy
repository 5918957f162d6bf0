/**
 The application's write operations as transitions of the shared store.

 The store holds four collections keyed like their database paths:
 `users/{id}`, `attendance/{id}`, `leaveRequests/{id}` and
 `leaveBalances/{userId}`. Each store write of the application is one
 multi-path `update` or, for a new leave request, one `set` on a single
 path; each is modelled on its success path as one pure function from
 store to store. The language toggle changes only client state, and
 deleting the built-in administrator returns before writing anything.
 Fresh record ids and timestamps, which the application draws from
 `Math.random` and the clock, are parameters.
 */
module App {
  import opened Wrappers
  import opened Calendar
  import opened Types
  import opened Constants
  import opened Ledger
  import opened Batch

  datatype Store = Store(
    users: map<string, User>,
    attendance: map<string, Attendance>,
    leaveRequests: map<string, LeaveRequest>,
    leaveBalances: map<string, LeaveBalance>)

  /** The client state: the synchronised store and the display language. */
  datatype AppState = AppState(store: Store, language: Language)

  function UserKey(u: User): string { u.id }
  function AttendanceKey(a: Attendance): string { a.id }
  function BalanceKey(b: LeaveBalance): string { b.userId }

  /** Requests and attendance records are stored under their own ids, which
      is what lets a lookup by key stand for a search by `id`. */
  predicate WellFormed(s: Store) {
    && (forall k :: k in s.leaveRequests ==> s.leaveRequests[k].id == k)
    && (forall k :: k in s.attendance ==> s.attendance[k].id == k)
  }

  // ---------------------------------------------------------------------
  // Language toggle

  function ToggleLanguage(st: AppState): (r: AppState)
    ensures r.store == st.store
    ensures r.language != st.language
  {
    st.(language := if st.language == EN then KN else EN)
  }

  // ---------------------------------------------------------------------
  // Leave requests

  /** The fields an employee fills in when applying for leave. */
  datatype LeaveDraft = LeaveDraft(
    userId: string,
    kind: LeaveType,
    startDate: Civil,
    endDate: Civil,
    reason: string)

  /** `submitLeaveRequest`: stores a PENDING request under the fresh id `id`,
      stamped with the submission time. */
  function SubmitLeaveRequest(s: Store, draft: LeaveDraft, id: string, appliedDate: string): (r: Store)
    ensures id in r.leaveRequests
    ensures r.leaveRequests[id] ==
            LeaveRequest(id, draft.userId, draft.kind, draft.startDate, draft.endDate, draft.reason, PENDING, appliedDate)
    ensures r.leaveRequests.Keys == s.leaveRequests.Keys + {id}
    ensures forall k :: k in s.leaveRequests && k != id ==> r.leaveRequests[k] == s.leaveRequests[k]
    ensures r.users == s.users && r.attendance == s.attendance && r.leaveBalances == s.leaveBalances
  {
    var request := LeaveRequest(id, draft.userId, draft.kind, draft.startDate, draft.endDate,
                                draft.reason, PENDING, appliedDate);
    s.(leaveRequests := s.leaveRequests[id := request])
  }

  /** The two decisions an administrator can take on a request. */
  datatype Decision = Approve | Reject

  function StatusOf(d: Decision): (st: LeaveStatus)
    ensures st != PENDING
  {
    match d
    case Approve => APPROVED
    case Reject => REJECTED
  }

  /** `Math.ceil((end - start) / (1000 * 3600 * 24)) + 1`: the inclusive
      number of days between two dates. Both dates are midnight instants, so
      their difference is a whole number of days and the ceiling is exact. */
  function InclusiveDays(start: Civil, end: Civil): (days: int)
    ensures start == end ==> days == 1
    ensures Valid(start) && Valid(end) ==> (days >= 1 <==> !Before(end, start))
  {
    DayNumberOrder(end, start);
    DayNumber(end) - DayNumber(start) + 1
  }

  /** How many times `for (let i = 0; i < days; i++)` runs. */
  function LoopCount(days: int): nat {
    if days > 0 then days else 0
  }

  /** The attendance record approval writes for one day of leave. */
  function LeaveDayRecord(attId: string, userId: string, date: Civil): (a: Attendance)
    ensures a.id == attId && a.userId == userId && a.date == date
    ensures a.checkIn.None? && a.checkOut.None?
    ensures a.status == HOLIDAY || a.status == ON_LEAVE
  {
    Attendance(attId, userId, date, if Listed(GokHolidays2026, date) then HOLIDAY else ON_LEAVE, None, None)
  }

  /** A day of approved leave is booked HOLIDAY exactly when the special-day
      classifier calls it a holiday for a regular employee. */
  lemma LeaveDayStatus(attId: string, userId: string, date: Civil)
    ensures LeaveDayRecord(attId, userId, date).status == HOLIDAY <==>
            SpecialDayInfo(date, REGULAR).Some? && SpecialDayInfo(date, REGULAR).value.status == HOLIDAY
  {
  }

  /** The records of the approval loop for the first `n` days from `start`,
      the i-th under the fresh id `attIds[i]`. */
  function LeaveRecords(userId: string, start: Civil, attIds: seq<string>, n: nat): (rows: seq<Attendance>)
    requires n <= |attIds|
    ensures |rows| == n
    ensures forall i :: 0 <= i < n ==> rows[i] == LeaveDayRecord(attIds[i], userId, AddDays(start, i))
  {
    if n == 0 then []
    else LeaveRecords(userId, start, attIds, n - 1) + [LeaveDayRecord(attIds[n - 1], userId, AddDays(start, n - 1))]
  }

  /** How many fresh attendance ids deciding `id` consumes. */
  function IdsNeeded(s: Store, id: string, decision: Decision): nat {
    if decision == Approve && id in s.leaveRequests then
      var req := s.leaveRequests[id];
      LoopCount(InclusiveDays(req.startDate, req.endDate))
    else 0
  }

  /** The balance approval starts from: the stored one, or the default
      entitlement when the user has none. */
  function CurrentBalance(balances: map<string, LeaveBalance>, userId: string): LeaveBalance {
    if userId in balances then balances[userId] else DefaultLeaveBalance(userId)
  }

  /** `updateLeaveStatus`: records the decision on the request and, on
      approval, debits the requester's balance and writes one attendance
      record per day of leave. There is no check that the request is still
      pending. */
  function UpdateLeaveStatus(s: Store, id: string, decision: Decision, attIds: seq<string>): (r: Store)
    requires IdsNeeded(s, id, decision) <= |attIds|
    ensures id !in s.leaveRequests ==> r == s
    ensures r.users == s.users
    ensures r.leaveRequests.Keys == s.leaveRequests.Keys
    ensures id in s.leaveRequests ==> r.leaveRequests[id] == s.leaveRequests[id].(status := StatusOf(decision))
    ensures forall k :: k in s.leaveRequests && k != id ==> r.leaveRequests[k] == s.leaveRequests[k]
    ensures decision == Reject ==> r.attendance == s.attendance && r.leaveBalances == s.leaveBalances
    ensures r.attendance.Keys >= s.attendance.Keys
  {
    if id !in s.leaveRequests then s
    else
      var req := s.leaveRequests[id];
      var requests := s.leaveRequests[id := req.(status := StatusOf(decision))];
      if decision == Reject then s.(leaveRequests := requests)
      else
        var days := InclusiveDays(req.startDate, req.endDate);
        var balance := Debit(CurrentBalance(s.leaveBalances, req.userId), req.kind, days);
        var rows := LeaveRecords(req.userId, req.startDate, attIds, LoopCount(days));
        Store(s.users,
              WriteAll(s.attendance, rows, AttendanceKey),
              requests,
              s.leaveBalances[req.userId := balance])
  }

  // ---------------------------------------------------------------------
  // Attendance

  /** `updateAttendance`: writes each record under its own id. */
  function UpdateAttendance(s: Store, records: seq<Attendance>): (r: Store)
    ensures r.attendance.Keys == s.attendance.Keys + Keys(records, AttendanceKey)
    ensures r.users == s.users && r.leaveRequests == s.leaveRequests && r.leaveBalances == s.leaveBalances
  {
    s.(attendance := WriteAll(s.attendance, records, AttendanceKey))
  }

  // ---------------------------------------------------------------------
  // Users and balances

  /** A `Partial<User>`: the fields present in an edit. */
  datatype UserPatch = UserPatch(
    id: Option<string>,
    name: Option<string>,
    email: Option<string>,
    role: Option<Role>,
    employeeType: Option<EmployeeType>,
    position: Option<string>,
    joinDate: Option<string>,
    password: Option<string>,
    birthday: Option<string>)

  /** A `Partial<LeaveBalance>`: the fields present in an edit or in the
      initial balance of a new user. */
  datatype BalancePatch = BalancePatch(
    userId: Option<string>,
    al: Option<int>,
    ml: Option<int>,
    cl: Option<int>,
    rh: Option<int>,
    comoff: Option<int>,
    used: Option<int>)

  const NoUserChange := UserPatch(None, None, None, None, None, None, None, None, None)
  const NoBalanceChange := BalancePatch(None, None, None, None, None, None, None)

  /** The value a balance patch supplies for a counter, if any. */
  function Override(p: BalancePatch, c: Counter): Option<int> {
    match c
    case Al => p.al
    case Ml => p.ml
    case Cl => p.cl
    case Rh => p.rh
    case Comoff => p.comoff
  }

  /** Overwrites exactly the fields present in the patch. */
  function PatchUser(u: User, p: UserPatch): (r: User)
    ensures p.id.None? ==> r.id == u.id
    ensures p.id.Some? ==> r.id == p.id.value
    ensures p.name.None? ==> r.name == u.name
    ensures p.name.Some? ==> r.name == p.name.value
    ensures p.email.None? ==> r.email == u.email
    ensures p.email.Some? ==> r.email == p.email.value
    ensures p.role.None? ==> r.role == u.role
    ensures p.role.Some? ==> r.role == p.role.value
    ensures p.employeeType.None? ==> r.employeeType == u.employeeType
    ensures p.employeeType.Some? ==> r.employeeType == p.employeeType.value
    ensures p.position.None? ==> r.position == u.position
    ensures p.position.Some? ==> r.position == p.position.value
    ensures p.joinDate.None? ==> r.joinDate == u.joinDate
    ensures p.joinDate.Some? ==> r.joinDate == p.joinDate.value
    ensures p.password.None? ==> r.password == u.password
    ensures p.password.Some? ==> r.password == p.password
    ensures p.birthday.None? ==> r.birthday == u.birthday
    ensures p.birthday.Some? ==> r.birthday == p.birthday
    ensures p == NoUserChange ==> r == u
  {
    User(p.id.GetOr(u.id),
         p.name.GetOr(u.name),
         p.email.GetOr(u.email),
         p.role.GetOr(u.role),
         p.employeeType.GetOr(u.employeeType),
         p.position.GetOr(u.position),
         p.joinDate.GetOr(u.joinDate),
         if p.password.Some? then p.password else u.password,
         if p.birthday.Some? then p.birthday else u.birthday)
  }

  /** Overwrites exactly the fields present in the patch. */
  function PatchBalance(b: LeaveBalance, p: BalancePatch): (r: LeaveBalance)
    ensures forall c :: Get(r, c) == Override(p, c).GetOr(Get(b, c))
    ensures p.userId.None? ==> r.userId == b.userId
    ensures p.userId.Some? ==> r.userId == p.userId.value
    ensures p.used.None? ==> r.used == b.used
    ensures p.used.Some? ==> r.used == p.used.value
    ensures p == NoBalanceChange ==> r == b
  {
    LeaveBalance(p.userId.GetOr(b.userId),
                 p.al.GetOr(b.al),
                 p.ml.GetOr(b.ml),
                 p.cl.GetOr(b.cl),
                 p.rh.GetOr(b.rh),
                 p.comoff.GetOr(b.comoff),
                 p.used.GetOr(b.used))
  }

  /** `addUser`: stores the user and a fresh balance whose counters take the
      given initial values, falling back to 15, 10, 8, 2 and 0; `used`
      always starts at 0. */
  function AddUser(s: Store, user: User, initial: BalancePatch): (r: Store)
    ensures r.users == s.users[user.id := user]
    ensures r.leaveBalances.Keys == s.leaveBalances.Keys + {user.id}
    ensures forall k :: k in s.leaveBalances && k != user.id ==> r.leaveBalances[k] == s.leaveBalances[k]
    ensures r.leaveBalances[user.id].userId == user.id && r.leaveBalances[user.id].used == 0
    ensures r.attendance == s.attendance && r.leaveRequests == s.leaveRequests
  {
    var balance := LeaveBalance(user.id,
                                initial.al.GetOr(15),
                                initial.ml.GetOr(10),
                                initial.cl.GetOr(8),
                                initial.rh.GetOr(2),
                                initial.comoff.GetOr(0),
                                0);
    s.(users := s.users[user.id := user], leaveBalances := s.leaveBalances[user.id := balance])
  }

  /** `updateBalance`: patches the fields present in `patch` of the balance
      stored for `userId`. */
  function UpdateBalance(s: Store, userId: string, patch: BalancePatch): (r: Store)
    ensures r.leaveBalances.Keys == s.leaveBalances.Keys
    ensures userId in s.leaveBalances ==> r.leaveBalances[userId] == PatchBalance(s.leaveBalances[userId], patch)
    ensures forall k :: k in s.leaveBalances && k != userId ==> r.leaveBalances[k] == s.leaveBalances[k]
    ensures r.users == s.users && r.attendance == s.attendance && r.leaveRequests == s.leaveRequests
  {
    if userId in s.leaveBalances then
      s.(leaveBalances := s.leaveBalances[userId := PatchBalance(s.leaveBalances[userId], patch)])
    else s
  }

  /** `updateUser`: patches the user record and the balance record of
      `userId` in one batch. */
  function UpdateUser(s: Store, userId: string, patch: UserPatch, balancePatch: BalancePatch): (r: Store)
    ensures r.users.Keys == s.users.Keys
    ensures userId in s.users ==> r.users[userId] == PatchUser(s.users[userId], patch)
    ensures forall k :: k in s.users && k != userId ==> r.users[k] == s.users[k]
    ensures r.leaveBalances == UpdateBalance(s, userId, balancePatch).leaveBalances
    ensures r.attendance == s.attendance && r.leaveRequests == s.leaveRequests
  {
    var users := if userId in s.users then s.users[userId := PatchUser(s.users[userId], patch)] else s.users;
    UpdateBalance(s, userId, balancePatch).(users := users)
  }

  /** The id of the built-in administrator, which cannot be deleted. */
  const ProtectedUserId := "1"

  /** `deleteUser`: removes the user and their balance, except for the
      built-in administrator; attendance and leave requests stay. */
  function DeleteUser(s: Store, userId: string): (r: Store)
    ensures userId == ProtectedUserId ==> r == s
    ensures userId != ProtectedUserId ==> r.users.Keys == s.users.Keys - {userId}
    ensures userId != ProtectedUserId ==> r.leaveBalances.Keys == s.leaveBalances.Keys - {userId}
    ensures forall k :: k in r.users ==> r.users[k] == s.users[k]
    ensures forall k :: k in r.leaveBalances ==> r.leaveBalances[k] == s.leaveBalances[k]
    ensures r.attendance == s.attendance && r.leaveRequests == s.leaveRequests
  {
    if userId == ProtectedUserId then s
    else s.(users := s.users - {userId}, leaveBalances := s.leaveBalances - {userId})
  }

  /** The default balances the seed writes, one per seed user. */
  function DefaultBalances(us: seq<User>): (bs: seq<LeaveBalance>)
    ensures |bs| == |us|
    ensures forall i :: 0 <= i < |us| ==> bs[i] == DefaultLeaveBalance(us[i].id)
  {
    seq(|us|, i requires 0 <= i < |us| => DefaultLeaveBalance(us[i].id))
  }

  /** `seedDatabase`: writes the initial users and a default balance for
      each; `today` is the local date when the application loads. */
  function SeedDatabase(s: Store, today: string): (r: Store)
    ensures r.attendance == s.attendance && r.leaveRequests == s.leaveRequests
  {
    var us := InitialUsers(today);
    s.(users := WriteAll(s.users, us, UserKey),
       leaveBalances := WriteAll(s.leaveBalances, DefaultBalances(us), BalanceKey))
  }
}
