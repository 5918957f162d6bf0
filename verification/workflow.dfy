/**
 Properties of the leave-approval workflow (`updateLeaveStatus` and
 `submitLeaveRequest`): the inclusive day count, the balance debit, the
 attendance records approval writes, the missing pending-state guard, and
 the well-formedness of the store.
 */
module Workflow {
  import opened Wrappers
  import opened Calendar
  import opened Types
  import opened Constants
  import opened SpecialDays
  import opened Ledger
  import opened Batch
  import opened App

  // ---------------------------------------------------------------------
  // Day count

  /** A request that starts and ends on the same day lasts one day. */
  lemma SameDayIsOneDay(c: Civil)
    ensures InclusiveDays(c, c) == 1
  {
  }

  /** From a valid date to the date `k` days later is `k + 1` days, end
      included. */
  lemma SpanDays(start: Civil, k: nat)
    requires Valid(start)
    ensures InclusiveDays(start, AddDays(start, k)) == k + 1
  {
    AddDaysNumber(start, k);
  }

  // ---------------------------------------------------------------------
  // Requests are found by id

  /** In a well-formed store the request stored under `id` is the one
      `find(r => r.id === id)` returns, and no other key holds a request
      with that id. */
  lemma LookupIsFind(s: Store, id: string)
    requires WellFormed(s)
    ensures id in s.leaveRequests <==> exists k :: k in s.leaveRequests && s.leaveRequests[k].id == id
    ensures forall k :: k in s.leaveRequests && s.leaveRequests[k].id == id ==> k == id
  {
    if id in s.leaveRequests {
      assert s.leaveRequests[id].id == id;
    }
  }

  lemma SubmitPreservesWellFormed(s: Store, draft: LeaveDraft, id: string, appliedDate: string)
    requires WellFormed(s)
    ensures WellFormed(SubmitLeaveRequest(s, draft, id, appliedDate))
  {
  }

  lemma UpdateLeaveStatusPreservesWellFormed(s: Store, id: string, decision: Decision, attIds: seq<string>)
    requires WellFormed(s)
    requires IdsNeeded(s, id, decision) <= |attIds|
    ensures WellFormed(UpdateLeaveStatus(s, id, decision, attIds))
  {
    var r := UpdateLeaveStatus(s, id, decision, attIds);
    if id in s.leaveRequests && decision == Approve {
      var req := s.leaveRequests[id];
      var rows := LeaveRecords(req.userId, req.startDate, attIds, LoopCount(InclusiveDays(req.startDate, req.endDate)));
      forall k | k in r.attendance
        ensures r.attendance[k].id == k
      {
        WriteAllSource(s.attendance, rows, AttendanceKey, k);
      }
    }
  }

  lemma UpdateAttendancePreservesWellFormed(s: Store, records: seq<Attendance>)
    requires WellFormed(s)
    ensures WellFormed(UpdateAttendance(s, records))
  {
    forall k | k in UpdateAttendance(s, records).attendance
      ensures UpdateAttendance(s, records).attendance[k].id == k
    {
      WriteAllSource(s.attendance, records, AttendanceKey, k);
    }
  }

  // ---------------------------------------------------------------------
  // Approval

  /** The first `n` fresh attendance ids are pairwise distinct and not yet
      used in the store. */
  predicate FreshIds(s: Store, attIds: seq<string>, n: nat) {
    && n <= |attIds|
    && (forall i, j :: 0 <= i < j < n ==> attIds[i] != attIds[j])
    && (forall i :: 0 <= i < n ==> attIds[i] !in s.attendance)
  }

  /** The number of days an approval of request `id` covers. */
  function RequestDays(s: Store, id: string): int
    requires id in s.leaveRequests
  {
    InclusiveDays(s.leaveRequests[id].startDate, s.leaveRequests[id].endDate)
  }

  /** Approval debits exactly the counter matching the leave type by the
      day count, adds the day count to `used`, starts from the default
      balance when the requester has none, overwrites only that user's
      balance, and clamps nothing. */
  lemma ApprovalDebitsMatchingCounter(s: Store, id: string, attIds: seq<string>)
    requires id in s.leaveRequests
    requires IdsNeeded(s, id, Approve) <= |attIds|
    ensures var req := s.leaveRequests[id];
            var days := RequestDays(s, id);
            var before := CurrentBalance(s.leaveBalances, req.userId);
            var after := UpdateLeaveStatus(s, id, Approve, attIds).leaveBalances;
            && after.Keys == s.leaveBalances.Keys + {req.userId}
            && after[req.userId].userId == before.userId
            && after[req.userId].used == before.used + days
            && (forall c :: Get(after[req.userId], c) == Get(before, c) - Charge(req.kind, c, days))
            && (forall k :: k in s.leaveBalances && k != req.userId ==> after[k] == s.leaveBalances[k])
  {
  }

  /** A user with no stored balance is debited from the default
      entitlement: annual leave of `days` days leaves `15 - days`. */
  lemma AbsentBalanceStartsFromDefault(s: Store, id: string, attIds: seq<string>)
    requires id in s.leaveRequests
    requires s.leaveRequests[id].userId !in s.leaveBalances
    requires s.leaveRequests[id].kind == AL
    requires IdsNeeded(s, id, Approve) <= |attIds|
    ensures var u := s.leaveRequests[id].userId;
            var days := RequestDays(s, id);
            UpdateLeaveStatus(s, id, Approve, attIds).leaveBalances[u] ==
              LeaveBalance(u, 15 - days, 10, 8, 2, 0, days)
  {
  }

  /** The rows the approval loop writes for request `id`. */
  function ApprovalRows(s: Store, id: string, attIds: seq<string>): (rows: seq<Attendance>)
    requires id in s.leaveRequests
    requires IdsNeeded(s, id, Approve) <= |attIds|
    ensures UpdateLeaveStatus(s, id, Approve, attIds).attendance == WriteAll(s.attendance, rows, AttendanceKey)
  {
    var req := s.leaveRequests[id];
    LeaveRecords(req.userId, req.startDate, attIds, LoopCount(RequestDays(s, id)))
  }

  /** Approval adds exactly one attendance record per day of leave, under
      the fresh ids in order: the i-th is the requester's record for the
      i-th day from the start date. Existing records stay as they were. */
  lemma ApprovalWritesOneRecordPerDay(s: Store, id: string, attIds: seq<string>)
    requires id in s.leaveRequests
    requires FreshIds(s, attIds, LoopCount(RequestDays(s, id)))
    ensures var req := s.leaveRequests[id];
            var n := LoopCount(RequestDays(s, id));
            var after := UpdateLeaveStatus(s, id, Approve, attIds).attendance;
            && |after| == |s.attendance| + n
            && (forall k :: k in s.attendance ==> k in after && after[k] == s.attendance[k])
            && (forall i :: 0 <= i < n ==>
                  attIds[i] in after &&
                  after[attIds[i]] == LeaveDayRecord(attIds[i], req.userId, AddDays(req.startDate, i)))
  {
    var rows := ApprovalRows(s, id, attIds);
    WriteAllFreshRows(s.attendance, rows, AttendanceKey, attIds);
  }

  /** The record approval writes for one day of leave: under the i-th
      fresh id, dated `i` days after the start. */
  lemma ApprovalRecordAt(s: Store, id: string, attIds: seq<string>, i: nat)
    requires id in s.leaveRequests
    requires FreshIds(s, attIds, LoopCount(RequestDays(s, id)))
    requires i < LoopCount(RequestDays(s, id))
    ensures var req := s.leaveRequests[id];
            var after := UpdateLeaveStatus(s, id, Approve, attIds).attendance;
            attIds[i] in after &&
            after[attIds[i]] == LeaveDayRecord(attIds[i], req.userId, AddDays(req.startDate, i))
  {
    ApprovalWritesOneRecordPerDay(s, id, attIds);
  }

  /** The dates the approval loop visits from `start` are consecutive, and
      the last of them is `end`. */
  lemma LoopDates(start: Civil, end: Civil)
    requires Valid(start) && Valid(end)
    ensures var n := LoopCount(InclusiveDays(start, end));
            && (forall i :: 0 <= i < n ==> DayNumber(AddDays(start, i)) == DayNumber(start) + i)
            && (n > 0 ==> AddDays(start, n - 1) == end)
  {
    var days := InclusiveDays(start, end);
    var n := LoopCount(days);
    ConsecutiveDays(start, n);
    if days > 0 {
      assert n - 1 == DayNumber(end) - DayNumber(start);
      ReachesEnd(start, end);
    }
  }

  /** The records cover consecutive days: the i-th is dated `i` days after
      the start, and the last one is dated on the end date. */
  lemma ApprovalRecordDates(s: Store, id: string, attIds: seq<string>)
    requires id in s.leaveRequests
    requires Valid(s.leaveRequests[id].startDate) && Valid(s.leaveRequests[id].endDate)
    requires FreshIds(s, attIds, LoopCount(RequestDays(s, id)))
    ensures var req := s.leaveRequests[id];
            var n := LoopCount(RequestDays(s, id));
            var after := UpdateLeaveStatus(s, id, Approve, attIds).attendance;
            && (forall i :: 0 <= i < n ==>
                  attIds[i] in after && DayNumber(after[attIds[i]].date) == DayNumber(req.startDate) + i)
            && (n > 0 ==> attIds[n - 1] in after && after[attIds[n - 1]].date == req.endDate)
  {
    var req := s.leaveRequests[id];
    var n := LoopCount(RequestDays(s, id));
    var after := UpdateLeaveStatus(s, id, Approve, attIds).attendance;
    forall i | 0 <= i < n
      ensures attIds[i] in after && after[attIds[i]].date == AddDays(req.startDate, i)
    {
      ApprovalRecordDateAt(s, id, attIds, i);
    }
    RecordsOnLoopDates(after, attIds, req.startDate, req.endDate, n);
  }

  /** Records dated by the loop's steps from `start` have consecutive day
      numbers, and the last one is dated `end`. */
  lemma RecordsOnLoopDates(after: map<string, Attendance>, attIds: seq<string>, start: Civil, end: Civil, n: nat)
    requires Valid(start) && Valid(end)
    requires n == LoopCount(InclusiveDays(start, end)) && n <= |attIds|
    requires forall i :: 0 <= i < n ==> attIds[i] in after && after[attIds[i]].date == AddDays(start, i)
    ensures forall i :: 0 <= i < n ==> DayNumber(after[attIds[i]].date) == DayNumber(start) + i
    ensures n > 0 ==> after[attIds[n - 1]].date == end
  {
    LoopDates(start, end);
  }

  /** The date of the record for the i-th day of an approval. */
  lemma ApprovalRecordDateAt(s: Store, id: string, attIds: seq<string>, i: nat)
    requires id in s.leaveRequests
    requires FreshIds(s, attIds, LoopCount(RequestDays(s, id)))
    requires i < LoopCount(RequestDays(s, id))
    ensures var after := UpdateLeaveStatus(s, id, Approve, attIds).attendance;
            attIds[i] in after && after[attIds[i]].date == AddDays(s.leaveRequests[id].startDate, i)
  {
    ApprovalRecordAt(s, id, attIds, i);
  }

  /** No day is booked twice: two records of one approval fall on
      different dates. */
  lemma ApprovalRecordsDistinctDates(s: Store, id: string, attIds: seq<string>, i: nat, j: nat)
    requires id in s.leaveRequests
    requires Valid(s.leaveRequests[id].startDate)
    requires FreshIds(s, attIds, LoopCount(RequestDays(s, id)))
    requires i < j < LoopCount(RequestDays(s, id))
    ensures var after := UpdateLeaveStatus(s, id, Approve, attIds).attendance;
            attIds[i] in after && attIds[j] in after &&
            after[attIds[i]].date != after[attIds[j]].date
  {
    ApprovalRecordAt(s, id, attIds, i);
    ApprovalRecordAt(s, id, attIds, j);
    AddDaysInjective(s.leaveRequests[id].startDate, i, j);
  }

  /** Each record belongs to the requester and is HOLIDAY exactly when its
      date is a listed holiday (exactly when the classifier calls it a
      holiday), and ON_LEAVE otherwise: a weekend day that is not a holiday
      is booked as leave, whatever the requester's employee type. */
  lemma ApprovalRecordStatus(s: Store, id: string, attIds: seq<string>)
    requires id in s.leaveRequests
    requires FreshIds(s, attIds, LoopCount(RequestDays(s, id)))
    ensures var req := s.leaveRequests[id];
            var n := LoopCount(RequestDays(s, id));
            var after := UpdateLeaveStatus(s, id, Approve, attIds).attendance;
            forall i :: 0 <= i < n ==>
              attIds[i] in after &&
              var rec := after[attIds[i]];
              && rec.userId == req.userId
              && (rec.status == HOLIDAY || rec.status == ON_LEAVE)
              && (rec.status == HOLIDAY <==> Listed(GokHolidays2026, rec.date))
              && (rec.status == HOLIDAY <==>
                    SpecialDayInfo(rec.date, REGULAR).Some? && SpecialDayInfo(rec.date, REGULAR).value.status == HOLIDAY)
  {
    var req := s.leaveRequests[id];
    var n := LoopCount(RequestDays(s, id));
    ApprovalWritesOneRecordPerDay(s, id, attIds);
    forall i | 0 <= i < n {
      HolidayIffListed(AddDays(req.startDate, i));
    }
  }

  /** Approval does not read the user records, so the requester's employee
      type plays no part in it. */
  lemma ApprovalIgnoresUsers(s: Store, id: string, decision: Decision, attIds: seq<string>,
                             users: map<string, User>)
    requires IdsNeeded(s, id, decision) <= |attIds|
    ensures UpdateLeaveStatus(s.(users := users), id, decision, attIds) ==
            UpdateLeaveStatus(s, id, decision, attIds).(users := users)
  {
  }

  /** An end date before the start date gives a day count of zero or less:
      the loop writes no record, no counter falls and `used` does not
      rise. */
  lemma ReversedRange(s: Store, id: string, attIds: seq<string>)
    requires id in s.leaveRequests
    requires Valid(s.leaveRequests[id].startDate) && Valid(s.leaveRequests[id].endDate)
    requires Before(s.leaveRequests[id].endDate, s.leaveRequests[id].startDate)
    ensures RequestDays(s, id) <= 0
    ensures var req := s.leaveRequests[id];
            var before := CurrentBalance(s.leaveBalances, req.userId);
            var r := UpdateLeaveStatus(s, id, Approve, attIds);
            && r.attendance == s.attendance
            && r.leaveBalances[req.userId].used <= before.used
            && forall c :: Get(r.leaveBalances[req.userId], c) >= Get(before, c)
  {
    DayNumberMonotone(s.leaveRequests[id].endDate, s.leaveRequests[id].startDate);
  }

  // ---------------------------------------------------------------------
  // No pending-state guard

  /** The requester's balance after an approval. */
  lemma ApprovalBalance(s: Store, id: string, attIds: seq<string>)
    requires id in s.leaveRequests
    requires IdsNeeded(s, id, Approve) <= |attIds|
    ensures var u := s.leaveRequests[id].userId;
            var after := UpdateLeaveStatus(s, id, Approve, attIds).leaveBalances;
            u in after && after[u] == Debit(CurrentBalance(s.leaveBalances, u), s.leaveRequests[id].kind, RequestDays(s, id))
  {
  }

  /** Deciding a request changes only its status, so the day count of a
      second decision is the day count of the first. */
  lemma DecisionKeepsDays(s: Store, id: string, decision: Decision, attIds: seq<string>)
    requires id in s.leaveRequests
    requires IdsNeeded(s, id, decision) <= |attIds|
    ensures var s1 := UpdateLeaveStatus(s, id, decision, attIds);
            && id in s1.leaveRequests
            && s1.leaveRequests[id].userId == s.leaveRequests[id].userId
            && s1.leaveRequests[id].kind == s.leaveRequests[id].kind
            && RequestDays(s1, id) == RequestDays(s, id)
  {
  }

  /** Approving a request twice debits the balance twice and, given fresh
      ids both times, writes two sets of attendance records. */
  lemma ApproveTwiceDebitsTwice(s: Store, id: string, ids1: seq<string>, ids2: seq<string>)
    requires id in s.leaveRequests
    requires FreshIds(s, ids1, LoopCount(RequestDays(s, id)))
    requires FreshIds(UpdateLeaveStatus(s, id, Approve, ids1), ids2, LoopCount(RequestDays(s, id)))
    ensures var req := s.leaveRequests[id];
            var days := RequestDays(s, id);
            var s1 := UpdateLeaveStatus(s, id, Approve, ids1);
            var s2 := UpdateLeaveStatus(s1, id, Approve, ids2);
            && s2.leaveRequests[id].status == APPROVED
            && s2.leaveBalances[req.userId] == Debit(CurrentBalance(s.leaveBalances, req.userId), req.kind, 2 * days)
            && |s2.attendance| == |s.attendance| + 2 * LoopCount(days)
  {
    var req := s.leaveRequests[id];
    var days := RequestDays(s, id);
    var s1 := UpdateLeaveStatus(s, id, Approve, ids1);
    DecisionKeepsDays(s, id, Approve, ids1);
    var b0 := CurrentBalance(s.leaveBalances, req.userId);
    ApprovalBalance(s, id, ids1);
    ApprovalBalance(s1, id, ids2);
    assert CurrentBalance(s1.leaveBalances, req.userId) == Debit(b0, req.kind, days);
    DebitTwice(b0, req.kind, days, days);
    ApprovalWritesOneRecordPerDay(s, id, ids1);
    ApprovalWritesOneRecordPerDay(s1, id, ids2);
  }

  /** Rejecting an approved request flips its status but gives back neither
      the debited days nor the attendance records. */
  lemma RejectAfterApproveKeepsEffects(s: Store, id: string, attIds: seq<string>)
    requires id in s.leaveRequests
    requires IdsNeeded(s, id, Approve) <= |attIds|
    ensures var s1 := UpdateLeaveStatus(s, id, Approve, attIds);
            var s2 := UpdateLeaveStatus(s1, id, Reject, []);
            && s2.leaveRequests[id].status == REJECTED
            && s2.leaveBalances == s1.leaveBalances
            && s2.attendance == s1.attendance
  {
  }
}
