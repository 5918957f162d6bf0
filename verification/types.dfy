/** A local `Option`, with `GetOr` standing for JavaScript's `??`. */
module Wrappers {

  datatype Option<+T> = None | Some(value: T) {

    /** The wrapped value, or `default` when there is none (JavaScript's `??`). */
    function GetOr(default: T): T {
      match this
      case Some(v) => v
      case None => default
    }
  }
}

/** The records and enumerations the application stores and exchanges. */
module Types {
  import opened Wrappers
  import opened Calendar

  datatype Role = ADMIN | EMPLOYEE

  datatype EmployeeType = REGULAR | OUTSOURCED

  datatype Language = EN | KN

  datatype AttendanceStatus = PRESENT | ABSENT | LATE | ON_LEAVE | HOLIDAY | WEEKEND

  datatype HolidayKind = PUBLIC | RESTRICTED

  datatype LeaveType = AL | ML | CL | RH | COMOFF | UNPAID

  datatype LeaveStatus = PENDING | APPROVED | REJECTED

  datatype User = User(
    id: string,
    name: string,
    email: string,
    role: Role,
    employeeType: EmployeeType,
    position: string,
    joinDate: string,
    password: Option<string>,
    birthday: Option<string>)

  datatype Attendance = Attendance(
    id: string,
    userId: string,
    date: Civil,
    status: AttendanceStatus,
    checkIn: Option<string>,
    checkOut: Option<string>)

  datatype Holiday = Holiday(date: Civil, name: string, kind: HolidayKind)

  /** Remaining entitlement per leave kind (signed: never clamped) and the
      cumulative number of days consumed. */
  datatype LeaveBalance = LeaveBalance(
    userId: string,
    al: int,
    ml: int,
    cl: int,
    rh: int,
    comoff: int,
    used: int)

  datatype LeaveRequest = LeaveRequest(
    id: string,
    userId: string,
    kind: LeaveType,
    startDate: Civil,
    endDate: Civil,
    reason: string,
    status: LeaveStatus,
    appliedDate: string)
}
