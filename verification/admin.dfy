/**
 Properties of the administrator's operations on users and balances
 (`addUser`, `updateUser`, `updateBalance`, `deleteUser`), of the first-run
 seed, of `updateAttendance` and of the language toggle.
 */
module Admin {
  import opened Wrappers
  import opened Types
  import opened Constants
  import opened Ledger
  import opened Batch
  import opened App

  // ---------------------------------------------------------------------
  // Language

  /** Toggling the language twice restores the state. */
  lemma ToggleTwice(st: AppState)
    ensures ToggleLanguage(ToggleLanguage(st)) == st
  {
  }

  // ---------------------------------------------------------------------
  // New users

  /** Without an initial balance, a new user gets exactly the default
      entitlement: the fallbacks of `addUser` agree with
      `DEFAULT_LEAVE_BALANCE`. */
  lemma AddUserDefaults(s: Store, user: User)
    ensures AddUser(s, user, NoBalanceChange).leaveBalances[user.id] == DefaultLeaveBalance(user.id)
  {
  }

  /** Each counter of a new user's balance is the one supplied, or the
      default one when none is; the balance belongs to the new user and
      `used` starts at 0 whatever the initial balance says. */
  lemma AddUserInitialBalance(s: Store, user: User, initial: BalancePatch)
    ensures var b := AddUser(s, user, initial).leaveBalances[user.id];
            && b.userId == user.id
            && b.used == 0
            && forall c :: Get(b, c) == Override(initial, c).GetOr(Get(DefaultLeaveBalance(user.id), c))
  {
    var b := AddUser(s, user, initial).leaveBalances[user.id];
    forall c
      ensures Get(b, c) == Override(initial, c).GetOr(Get(DefaultLeaveBalance(user.id), c))
    {
      match c
      case Al =>
      case Ml =>
      case Cl =>
      case Rh =>
      case Comoff =>
    }
  }

  /** Adding a user whose id is new and then deleting them gives back the
      store as it was. */
  lemma DeleteUndoesAdd(s: Store, user: User, initial: BalancePatch)
    requires user.id != ProtectedUserId
    requires user.id !in s.users && user.id !in s.leaveBalances
    ensures DeleteUser(AddUser(s, user, initial), user.id) == s
  {
    var r := DeleteUser(AddUser(s, user, initial), user.id);
    assert r.users == s.users;
    assert r.leaveBalances == s.leaveBalances;
  }

  // ---------------------------------------------------------------------
  // Deletion

  /** The built-in administrator survives every deletion, record and
      balance alike. */
  lemma AdminSurvivesDeletion(s: Store, userId: string)
    ensures ProtectedUserId in s.users ==>
              ProtectedUserId in DeleteUser(s, userId).users &&
              DeleteUser(s, userId).users[ProtectedUserId] == s.users[ProtectedUserId]
    ensures ProtectedUserId in s.leaveBalances ==>
              ProtectedUserId in DeleteUser(s, userId).leaveBalances &&
              DeleteUser(s, userId).leaveBalances[ProtectedUserId] == s.leaveBalances[ProtectedUserId]
  {
  }

  /** Deleting a user twice is the same as deleting them once. */
  lemma DeleteTwice(s: Store, userId: string)
    ensures DeleteUser(DeleteUser(s, userId), userId) == DeleteUser(s, userId)
  {
  }

  // ---------------------------------------------------------------------
  // Partial updates

  /** The patch that applies `p` and then `q`: `q`'s fields win. */
  function MergeBalance(p: BalancePatch, q: BalancePatch): BalancePatch {
    BalancePatch(if q.userId.Some? then q.userId else p.userId,
                 if q.al.Some? then q.al else p.al,
                 if q.ml.Some? then q.ml else p.ml,
                 if q.cl.Some? then q.cl else p.cl,
                 if q.rh.Some? then q.rh else p.rh,
                 if q.comoff.Some? then q.comoff else p.comoff,
                 if q.used.Some? then q.used else p.used)
  }

  /** The patch that applies `p` and then `q`: `q`'s fields win. */
  function MergeUser(p: UserPatch, q: UserPatch): UserPatch {
    UserPatch(if q.id.Some? then q.id else p.id,
              if q.name.Some? then q.name else p.name,
              if q.email.Some? then q.email else p.email,
              if q.role.Some? then q.role else p.role,
              if q.employeeType.Some? then q.employeeType else p.employeeType,
              if q.position.Some? then q.position else p.position,
              if q.joinDate.Some? then q.joinDate else p.joinDate,
              if q.password.Some? then q.password else p.password,
              if q.birthday.Some? then q.birthday else p.birthday)
  }

  /** An empty balance edit changes nothing. */
  lemma UpdateBalanceNoChange(s: Store, userId: string)
    ensures UpdateBalance(s, userId, NoBalanceChange) == s
  {
  }

  /** Two balance edits in a row act as one edit in which the later
      fields win; in particular repeating an edit changes nothing more. */
  lemma UpdateBalanceTwice(s: Store, userId: string, p: BalancePatch, q: BalancePatch)
    ensures UpdateBalance(UpdateBalance(s, userId, p), userId, q) == UpdateBalance(s, userId, MergeBalance(p, q))
    ensures UpdateBalance(UpdateBalance(s, userId, p), userId, p) == UpdateBalance(s, userId, p)
  {
    assert MergeBalance(p, p) == p;
  }

  /** An edit with no user fields and no balance fields changes nothing. */
  lemma UpdateUserNoChange(s: Store, userId: string)
    ensures UpdateUser(s, userId, NoUserChange, NoBalanceChange) == s
  {
    UpdateBalanceNoChange(s, userId);
    if userId in s.users {
      assert PatchUser(s.users[userId], NoUserChange) == s.users[userId];
    }
  }

  /** Two user edits in a row act as one edit in which the later fields
      win, on the user record and the balance alike. */
  lemma UpdateUserTwice(s: Store, userId: string, p: UserPatch, pb: BalancePatch, q: UserPatch, qb: BalancePatch)
    ensures UpdateUser(UpdateUser(s, userId, p, pb), userId, q, qb) ==
            UpdateUser(s, userId, MergeUser(p, q), MergeBalance(pb, qb))
  {
    UpdateBalanceTwice(s, userId, pb, qb);
  }

  /** Repeating a user edit changes nothing more. */
  lemma UpdateUserIdempotent(s: Store, userId: string, p: UserPatch, pb: BalancePatch)
    ensures UpdateUser(UpdateUser(s, userId, p, pb), userId, p, pb) == UpdateUser(s, userId, p, pb)
  {
    UpdateUserTwice(s, userId, p, pb, p, pb);
    assert MergeUser(p, p) == p;
    assert MergeBalance(pb, pb) == pb;
  }

  // ---------------------------------------------------------------------
  // Attendance and seed

  /** Writing the same attendance records twice is the same as writing
      them once. */
  lemma UpdateAttendanceIdempotent(s: Store, records: seq<Attendance>)
    ensures UpdateAttendance(UpdateAttendance(s, records), records) == UpdateAttendance(s, records)
  {
    WriteAllIdempotent(s.attendance, records, AttendanceKey);
  }

  /** The seed stores each initial user under its id; ids outside the seed
      keep their user records. */
  lemma SeedWritesUsers(s: Store, today: string)
    ensures var us := InitialUsers(today);
            var r := SeedDatabase(s, today).users;
            && r.Keys == s.users.Keys + {"1", "2", "3", "4"}
            && (forall i :: 0 <= i < |us| ==> r[us[i].id] == us[i])
            && (forall k :: k in s.users && k !in {"1", "2", "3", "4"} ==> r[k] == s.users[k])
  {
    var us := InitialUsers(today);
    SeedKeys(today);
    forall i | 0 <= i < |us|
      ensures WriteAll(s.users, us, UserKey)[us[i].id] == us[i]
    {
      WriteAllStores(s.users, us, UserKey, i);
    }
    forall k | k in s.users && k !in {"1", "2", "3", "4"}
      ensures WriteAll(s.users, us, UserKey)[k] == s.users[k]
    {
      WriteAllKeeps(s.users, us, UserKey, k);
    }
  }

  /** The seed gives each initial user the default balance; ids outside
      the seed keep their balances. */
  lemma SeedWritesBalances(s: Store, today: string)
    ensures var us := InitialUsers(today);
            var r := SeedDatabase(s, today).leaveBalances;
            && r.Keys == s.leaveBalances.Keys + {"1", "2", "3", "4"}
            && (forall i :: 0 <= i < |us| ==> r[us[i].id] == DefaultLeaveBalance(us[i].id))
            && (forall k :: k in s.leaveBalances && k !in {"1", "2", "3", "4"} ==> r[k] == s.leaveBalances[k])
  {
    var bs := DefaultBalances(InitialUsers(today));
    SeedKeys(today);
    forall i | 0 <= i < |bs|
      ensures WriteAll(s.leaveBalances, bs, BalanceKey)[bs[i].userId] == bs[i]
    {
      WriteAllStores(s.leaveBalances, bs, BalanceKey, i);
    }
    forall k | k in s.leaveBalances && k !in {"1", "2", "3", "4"}
      ensures WriteAll(s.leaveBalances, bs, BalanceKey)[k] == s.leaveBalances[k]
    {
      WriteAllKeeps(s.leaveBalances, bs, BalanceKey, k);
    }
  }

  /** The seed batches write the keys "1" to "4", each once. */
  lemma SeedKeys(today: string)
    ensures var us := InitialUsers(today);
            var bs := DefaultBalances(us);
            && Keys(us, UserKey) == {"1", "2", "3", "4"}
            && Keys(bs, BalanceKey) == {"1", "2", "3", "4"}
            && (forall i :: 0 <= i < |us| ==> LastWrite(us, UserKey, i))
            && (forall i :: 0 <= i < |bs| ==> LastWrite(bs, BalanceKey, i))
  {
    var us := InitialUsers(today);
    var bs := DefaultBalances(us);
    forall k
      ensures k in Keys(us, UserKey) <==> k in {"1", "2", "3", "4"}
      ensures k in Keys(bs, BalanceKey) <==> k in {"1", "2", "3", "4"}
    {
      KeysMembership(us, UserKey, k);
      KeysMembership(bs, BalanceKey, k);
      if k in {"1", "2", "3", "4"} {
        var i := if k == "1" then 0 else if k == "2" then 1 else if k == "3" then 2 else 3;
        assert UserKey(us[i]) == k && BalanceKey(bs[i]) == k;
      }
    }
  }

  /** Seeding twice is the same as seeding once. */
  lemma SeedTwice(s: Store, today: string)
    ensures SeedDatabase(SeedDatabase(s, today), today) == SeedDatabase(s, today)
  {
    var us := InitialUsers(today);
    WriteAllIdempotent(s.users, us, UserKey);
    WriteAllIdempotent(s.leaveBalances, DefaultBalances(us), BalanceKey);
  }
}
