/**
 Two concrete approvals against the 2026 calendar: two working days of
 annual leave in March, and a leave that spans New Year's Day.
 */
module Scenarios {
  import opened Wrappers
  import opened Calendar
  import opened Types
  import opened Constants
  import opened SpecialDays
  import opened Ledger
  import opened App
  import opened Workflow

  /** Approving annual leave from 2026-03-02 to 2026-03-03 (no holiday in
      between) takes 2 days of annual leave, adds 2 to `used`, and writes
      two ON_LEAVE records, one for each day. */
  lemma MarchAnnualLeave(s: Store, id: string, attIds: seq<string>)
    requires id in s.leaveRequests
    requires s.leaveRequests[id].kind == AL
    requires s.leaveRequests[id].startDate == Civil(2026, 3, 2)
    requires s.leaveRequests[id].endDate == Civil(2026, 3, 3)
    requires FreshIds(s, attIds, 2)
    ensures var u := s.leaveRequests[id].userId;
            var before := CurrentBalance(s.leaveBalances, u);
            var r := UpdateLeaveStatus(s, id, Approve, attIds);
            && u in r.leaveBalances
            && r.leaveBalances[u].al == before.al - 2
            && r.leaveBalances[u].used == before.used + 2
            && |r.attendance| == |s.attendance| + 2
            && attIds[0] in r.attendance && attIds[1] in r.attendance
            && r.attendance[attIds[0]] == Attendance(attIds[0], u, Civil(2026, 3, 2), ON_LEAVE, None, None)
            && r.attendance[attIds[1]] == Attendance(attIds[1], u, Civil(2026, 3, 3), ON_LEAVE, None, None)
  {
    assert RequestDays(s, id) == 2;
    assert AddDays(Civil(2026, 3, 2), 1) == Civil(2026, 3, 3);
    GokTable();
    NotListedBetween(GokHolidays2026, 3, Civil(2026, 3, 2));
    NotListedBetween(GokHolidays2026, 3, Civil(2026, 3, 3));
    ApprovalBalance(s, id, attIds);
    ApprovalWritesOneRecordPerDay(s, id, attIds);
  }

  /** A leave whose range includes 2026-01-01 gets a HOLIDAY record for
      that day, which still counts among the days debited. */
  lemma NewYearInsideLeave(s: Store, id: string, attIds: seq<string>)
    requires id in s.leaveRequests
    requires Valid(s.leaveRequests[id].startDate) && Valid(s.leaveRequests[id].endDate)
    requires !Before(Civil(2026, 1, 1), s.leaveRequests[id].startDate)
    requires !Before(s.leaveRequests[id].endDate, Civil(2026, 1, 1))
    requires FreshIds(s, attIds, LoopCount(RequestDays(s, id)))
    ensures var r := UpdateLeaveStatus(s, id, Approve, attIds);
            exists i :: 0 <= i < RequestDays(s, id) && i < |attIds| && attIds[i] in r.attendance &&
                        r.attendance[attIds[i]].date == Civil(2026, 1, 1) &&
                        r.attendance[attIds[i]].status == HOLIDAY
  {
    var req := s.leaveRequests[id];
    var i := NewYearOffset(req.startDate, req.endDate);
    ApprovalRecordAt(s, id, attIds, i);
    NewYearListed();
  }

  /** New Year's Day is in the 2026 table. */
  lemma NewYearListed()
    ensures Listed(GokHolidays2026, Civil(2026, 1, 1))
  {
    assert GokHolidays2026[0].date == Civil(2026, 1, 1);
  }

  /** The loop step on which a range containing 2026-01-01 reaches it. */
  lemma NewYearOffset(start: Civil, end: Civil) returns (i: nat)
    requires Valid(start) && Valid(end)
    requires !Before(Civil(2026, 1, 1), start)
    requires !Before(end, Civil(2026, 1, 1))
    ensures i < LoopCount(InclusiveDays(start, end))
    ensures AddDays(start, i) == Civil(2026, 1, 1)
  {
    var newYear := Civil(2026, 1, 1);
    if Before(start, newYear) {
      DayNumberMonotone(start, newYear);
    }
    if Before(newYear, end) {
      DayNumberMonotone(newYear, end);
    }
    i := DayNumber(newYear) - DayNumber(start);
    ReachesEnd(start, newYear);
  }
}
