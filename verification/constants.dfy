/**
 Reference data of the application: the Government of Karnataka holiday
 calendar for 2026, the default leave entitlement, the seed users, and the
 special-day classifier built on the calendar.
 */
module Constants {
  import opened Wrappers
  import opened Calendar
  import opened Types

  /** The 2026 public holidays, in calendar order. */
  const GokHolidays2026: seq<Holiday> := [
    Holiday(Civil(2026, 1, 1), "New Year's Day", PUBLIC),
    Holiday(Civil(2026, 1, 14), "Makara Sankranti", PUBLIC),
    Holiday(Civil(2026, 1, 26), "Republic Day", PUBLIC),
    Holiday(Civil(2026, 2, 15), "Maha Shivaratri", PUBLIC),
    Holiday(Civil(2026, 3, 19), "Ugadi", PUBLIC),
    Holiday(Civil(2026, 4, 1), "Ambedkar Jayanti", PUBLIC),
    Holiday(Civil(2026, 4, 5), "Good Friday", PUBLIC),
    Holiday(Civil(2026, 5, 1), "May Day", PUBLIC),
    Holiday(Civil(2026, 8, 15), "Independence Day", PUBLIC),
    Holiday(Civil(2026, 8, 27), "Ganesh Chaturthi", PUBLIC),
    Holiday(Civil(2026, 10, 2), "Gandhi Jayanti", PUBLIC),
    Holiday(Civil(2026, 10, 21), "Ayudha Pooja", PUBLIC),
    Holiday(Civil(2026, 10, 22), "Vijayadashami", PUBLIC),
    Holiday(Civil(2026, 11, 1), "Kannada Rajyotsava", PUBLIC),
    Holiday(Civil(2026, 11, 8), "Deepavali", PUBLIC),
    Holiday(Civil(2026, 12, 25), "Christmas", PUBLIC)
  ]

  /** `table.some(h => h.date === date)`. */
  predicate Listed(table: seq<Holiday>, date: Civil) {
    exists i :: 0 <= i < |table| && table[i].date == date
  }

  /** `table.find(h => h.date === date)`: the first entry on that date. */
  function FindHoliday(table: seq<Holiday>, date: Civil): (r: Option<Holiday>)
    ensures r.Some? <==> Listed(table, date)
    ensures r.Some? ==> exists i :: 0 <= i < |table| && table[i] == r.value && r.value.date == date &&
                                    forall j :: 0 <= j < i ==> table[j].date != date
  {
    FindFrom(table, date, 0)
  }

  /** The scan of `find` from index `k` onwards. */
  function FindFrom(table: seq<Holiday>, date: Civil, k: nat): (r: Option<Holiday>)
    requires k <= |table|
    ensures r.Some? <==> exists i :: k <= i < |table| && table[i].date == date
    ensures r.Some? ==> exists i :: k <= i < |table| && table[i] == r.value && r.value.date == date &&
                                    forall j :: k <= j < i ==> table[j].date != date
    decreases |table| - k
  {
    if k == |table| then None
    else if table[k].date == date then Some(table[k])
    else FindFrom(table, date, k + 1)
  }

  /** What the classifier reports about a day: its kind (HOLIDAY or WEEKEND)
      and a display name. */
  datatype SpecialDay = SpecialDay(status: AttendanceStatus, name: string)

  /** `getSpecialDayInfo`: whether `date` is a holiday or a weekend day off
      for an employee of the given type, against the 2026 calendar. */
  function SpecialDayInfo(date: Civil, employeeType: EmployeeType): (r: Option<SpecialDay>)
    ensures r.Some? ==> employeeType == REGULAR
    ensures employeeType == REGULAR && Listed(GokHolidays2026, date) ==> r.Some? && r.value.status == HOLIDAY
    ensures r.Some? && r.value.status == WEEKEND ==>
              !Listed(GokHolidays2026, date) && (Weekday(date) == 0 || Weekday(date) == 6)
  {
    ClassifyWith(GokHolidays2026, date, employeeType)
  }

  /** The classifier's rules against an arbitrary holiday table: holidays
      first, then Sundays, then the second and fourth Saturdays. */
  function ClassifyWith(table: seq<Holiday>, date: Civil, employeeType: EmployeeType): (r: Option<SpecialDay>)
    ensures r.Some? ==> employeeType.REGULAR?
    ensures r.Some? ==> r.value.status == HOLIDAY || r.value.status == WEEKEND
  {
    if employeeType == OUTSOURCED then None
    else
      var weekNum := WeekOfMonth(date.day);
      match FindHoliday(table, date)
      case Some(h) => Some(SpecialDay(HOLIDAY, h.name))
      case None =>
        if Weekday(date) == 0 then Some(SpecialDay(WEEKEND, "Sunday"))
        else if Weekday(date) == 6 && weekNum == 2 then Some(SpecialDay(WEEKEND, "2nd Saturday"))
        else if Weekday(date) == 6 && weekNum == 4 then Some(SpecialDay(WEEKEND, "4th Saturday"))
        else None
  }

  /** `{ ...DEFAULT_LEAVE_BALANCE, userId }`. */
  function DefaultLeaveBalance(userId: string): (b: LeaveBalance)
    ensures b.userId == userId && b.used == 0
  {
    LeaveBalance(userId, 15, 10, 8, 2, 0, 0)
  }

  /** The accounts written by the first-run seed; the second user's birthday
      is the local date when the application loads, passed in as `today`. */
  function InitialUsers(today: string): (us: seq<User>)
    ensures |us| == 4
    ensures forall i, j :: 0 <= i < j < |us| ==> us[i].id != us[j].id
    ensures us[0].id == "1" && us[0].role == ADMIN
  {
    [ User("1", "System Admin", "admin@ksndmcflow.com", ADMIN, REGULAR,
           "Operations Manager", "2025-01-01", Some("admin123"), Some("1985-05-15")),
      User("2", "Jane Doe", "jane.doe@ksndmcflow.com", EMPLOYEE, REGULAR,
           "Software Engineer", "2025-06-15", Some("pass123"), Some(today)),
      User("3", "John Smith", "john.smith@ksndmcflow.com", EMPLOYEE, REGULAR,
           "Product Designer", "2025-03-10", Some("pass123"), Some("1992-11-20")),
      User("4", "Alice Wong", "alice.w@ksndmcflow.com", EMPLOYEE, OUTSOURCED,
           "HR Specialist", "2025-08-20", Some("pass123"), Some("1995-02-14")) ]
  }
}
