# Leave and attendance core of KSNDMC Flow, in Dafny

KSNDMC Flow is an attendance and leave-management application. It stores
four collections in a realtime database:
- users;
- attendance records;
- leave requests;
- leave balances.

Each store write of the application is one multi-path `update` or, when a
leave request is submitted, one `set` on a single path (App.tsx:136). This
project models each write on its success path as a pure transition of a
`Store` (four maps keyed like the database paths) and proves properties
about them. The language toggle changes only client state (App.tsx:106-111),
and deleting user "1" returns before any write (App.tsx:240).

- **Leave approval** (`updateLeaveStatus`). The request is found by id and
  its status is set. On approval:
  - the inclusive day count is computed;
  - the counter matching the leave type is debited and `used` is raised;
  - a requester with no stored balance starts from the default entitlement;
  - one attendance record per day is written, HOLIDAY on a listed 2026
    holiday and ON_LEAVE otherwise.
- **Other operations.** Submitting a request, adding, editing and deleting
  users, editing balances, writing attendance, the first-run seed, and the
  language toggle.
- **Special-day classifier** (`getSpecialDayInfo`). For regular staff it
  labels, in this order of precedence:
  - listed holidays;
  - Sundays;
  - second and fourth Saturdays.

  Outsourced staff get no labels.
- **Reference data.** The 2026 Government of Karnataka holiday table, the
  default leave balance and the four seed users.

Modules and files:
- `Calendar` (`calendar.dfy`): proleptic Gregorian dates and day numbers.
- `Wrappers`, `Types` (`types.dfy`): the records.
- `Constants` (`constants.dfy`): reference data and the classifier.
- `SpecialDays` (`special_days.dfy`): classifier and table properties.
- `Batch` (`batch.dfy`): the semantics of a multi-path write into one
  collection.
- `Ledger` (`ledger.dfy`): balance counters and the debit.
- `App` (`app.dfy`): the operations.
- `Workflow` (`workflow.dfy`): approval properties.
- `Admin` (`admin.dfy`): properties of the user, balance, seed and toggle
  operations.
- `Scenarios` (`scenarios.dfy`): two concrete 2026 approvals.

Modelling choices:
- A date string `YYYY-MM-DD` is the triple `Civil(year, month, day)`. The
  day difference `end - start` and `setDate(getDate() + i)` are modelled
  through day numbers (days since 1970-01-01). `getDay()` is
  `(dayNumber + 4) % 7`, with 0 for Sunday.
- Fresh ids (`Math.random`) and timestamps (`new Date()`) are parameters of
  the operations. That ids are fresh and distinct is a precondition of the
  lemmas that need it, not of the operations.
- The starting balance of an approval (App.tsx:157) is the stored balance
  or, when none is stored, `DEFAULT_LEAVE_BALANCE` for the requester. This
  is stated by `Workflow.ApprovalBalance`, `Workflow.ApprovalDebitsMatchingCounter`
  and `Workflow.AbsentBalanceStartsFromDefault`.
- `state.leaveRequests.find(r => r.id === id)` is a lookup by key.
  `Workflow.LookupIsFind` shows that the two agree in a well-formed store,
  one where every request is stored under its own id.

Two behaviours of `updateLeaveStatus` follow from checks the code does not
make:
- It does not check that the request is still PENDING (App.tsx:142-152).
  So approving twice debits twice and writes the records twice
  (`Workflow.ApproveTwiceDebitsTwice`). Rejecting after approving returns
  neither the days nor the records (`Workflow.RejectAfterApproveKeepsEffects`).
- It does not check that the end date is not before the start date
  (App.tsx:153-155). For such a range the day count is zero or negative, no
  record is written, no counter falls and `used` does not rise
  (`Workflow.ReversedRange`). By `Workflow.ApprovalBalance` and
  `Ledger.Debit`, a negative count makes `used` fall and, unless the type
  is UNPAID, the matching counter rise. A zero count stores the balance
  approval started from with its values unchanged.

## Model

| member | source | states |
|---|---|---|
| Calendar.Weekday | constants.ts:84 | `getDay()` is a weekday from 0 (Sunday) to 6 (Saturday), and 1970-01-01 was a Thursday |
| Calendar.WeekdayNext | constants.ts:84 | the day after a valid date falls on the next weekday, Saturday wrapping to Sunday |
| Calendar.DayNumberOrder | App.tsx:153-155 | on valid dates, calendar order and the order of the timestamps agree |
| Calendar.WeekOfMonth | constants.ts:86 | `Math.ceil(d / 7)` is the week `w` with `7(w-1) < d <= 7w` |
| Calendar.NextDayStep | App.tsx:174-176 | advancing a valid date by one calendar day yields a valid date whose day number is one larger, across month and year ends and 29 February |
| Calendar.AddDaysNumber | App.tsx:173-176 | the date `i` days after a valid start is valid and its day number is the start's plus `i` |
| Calendar.DayNumberMonotone | App.tsx:153-155 | the timestamp difference follows calendar order: an earlier valid date has a smaller day number |
| Calendar.DayNumberInjective | App.tsx:153-155 | distinct valid dates have distinct day numbers |
| Calendar.ReachesEnd | App.tsx:173-176 | stepping forward from a valid start reaches any valid date that is not earlier |
| Constants.FindHoliday | constants.ts:89 | `find` by date returns an entry exactly when the date is listed, and then the first entry with that date |
| Constants.ClassifyWith | constants.ts:79-102 | a label is given only to regular staff and is HOLIDAY or WEEKEND |
| Constants.SpecialDayInfo | constants.ts:79-102 | only regular staff get a label; a listed date is a HOLIDAY; a WEEKEND label falls only on an unlisted Sunday or Saturday |
| Constants.DefaultLeaveBalance | constants.ts:104-111 | the default balance belongs to the given user and has nothing used |
| Constants.InitialUsers | constants.ts:7-52 | four seed users with distinct ids; the first is the administrator with id "1" |
| SpecialDays.GokTable | constants.ts:54-71 | the 2026 table has 16 entries in strict calendar order, so no two share a date |
| SpecialDays.GokTableDates | constants.ts:54-71 | every table date is a real day of 2026 |
| SpecialDays.ChronologicalDistinct | constants.ts:54-71 | a table in strict calendar order never lists a date twice, so `find` and `some` by date are unambiguous |
| SpecialDays.NotListedBetween | constants.ts:54-71 | in a chronological table, a date strictly between two neighbouring entries is not listed |
| SpecialDays.FindDistinct | constants.ts:89 | with distinct dates, `find` on an entry's date returns that entry |
| SpecialDays.OutsourcedNeverSpecial | constants.ts:81 | outsourced staff never get a label |
| SpecialDays.ListedHolidayClassified | constants.ts:89-90 | every listed holiday is labelled HOLIDAY under its own name, whatever its weekday |
| SpecialDays.HolidayIffListed | constants.ts:89-90 | for regular staff the label is HOLIDAY exactly on listed dates |
| SpecialDays.SundayRule | constants.ts:93 | an unlisted Sunday is labelled WEEKEND "Sunday" |
| SpecialDays.SaturdayRule | constants.ts:86-99 | an unlisted Saturday is "2nd Saturday" exactly on days 8-14, "4th Saturday" exactly on days 22-28, and unlabelled otherwise |
| SpecialDays.WorkdayRule | constants.ts:101 | an unlisted Monday to Friday gets no label |
| SpecialDays.WeekendIff | constants.ts:92-99 | for regular staff a valid date is WEEKEND exactly when it is unlisted and is a Sunday or a second or fourth Saturday |
| SpecialDays.SundayHolidayDates2026 | constants.ts:68-69 | 2026-11-01 and 2026-11-08 are Sundays |
| SpecialDays.RajyotsavaIsHoliday | constants.ts:89-93 | Kannada Rajyotsava (2026-11-01), a Sunday, is labelled HOLIDAY rather than Sunday |
| SpecialDays.DeepavaliIsHoliday | constants.ts:89-93 | Deepavali (2026-11-08), a Sunday, is labelled HOLIDAY rather than Sunday |
| Batch.WriteAll | App.tsx:117-121 | after a multi-path write, the keys are the old keys plus the keys of the rows |
| Batch.KeysMembership | App.tsx:117-121 | a key is written exactly when some row carries it |
| Batch.WriteAllKeeps | App.tsx:117-121 | records under keys the batch does not write are untouched |
| Batch.WriteAllStores | App.tsx:117-121 | the last row written under a key is the stored record |
| Batch.WriteAllSource | App.tsx:117-121 | every record after the write is an old record or a row written under that key |
| Batch.WriteAllSize | App.tsx:117-121 | rows with distinct fresh keys add exactly one record each |
| Batch.WriteAllFreshRows | App.tsx:179-185 | rows under distinct fresh ids add one record each, each stored under its id, with old records kept |
| Batch.WriteAllOverrides | App.tsx:117-121 | under a key the batch writes, the result does not depend on the previous contents |
| Batch.WriteAllIdempotent | App.tsx:117-121 | writing the same batch twice equals writing it once |
| Ledger.CounterOf | App.tsx:160-166 | every leave type draws on a counter except UNPAID, which draws on none |
| Ledger.Debit | App.tsx:158-167 | the debit keeps the owner, adds the days to `used` and lowers exactly the matching counter by the days, with no floor |
| Ledger.DebitTwice | App.tsx:160-167 | two debits of one type add up to one debit of the sum |
| Ledger.UnpaidDrawsNoCounter | App.tsx:160-167 | UNPAID leave leaves every counter alone but still adds to `used` |
| App.ToggleLanguage | App.tsx:106-111 | the toggle changes the language and nothing else |
| App.SubmitLeaveRequest | App.tsx:127-140 | a PENDING request with the draft's fields, the fresh id and the submission time is stored under that id; nothing else changes |
| App.InclusiveDays | App.tsx:155 | a one-day range counts 1; on valid dates the count is at least 1 exactly when the end is not before the start |
| App.LeaveDayRecord | App.tsx:180-185 | the record carries the fresh id, the requester and the date, with no check-in or check-out, and is HOLIDAY or ON_LEAVE |
| App.LeaveDayStatus | App.tsx:177-184 | a day of leave is booked HOLIDAY exactly when the special-day classifier calls it a holiday for a regular employee |
| App.LeaveRecords | App.tsx:173-186 | the loop's i-th row is the requester's record for `start + i` days under the i-th fresh id |
| App.UpdateLeaveStatus | App.tsx:142-193 | an unknown id changes nothing; otherwise the status is set and no other request changes; users are never touched; a rejection touches neither attendance nor balances; no attendance record is removed |
| App.UpdateAttendance | App.tsx:115-125 | the attendance keys become the old keys plus the records' ids; the other collections are unchanged |
| App.AddUser | App.tsx:195-217 | the user is stored under their id with a balance that belongs to them and has `used` 0; other balances are unchanged |
| App.PatchBalance | App.tsx:256-258 | every field the edit supplies (each counter, `userId`, `used`) takes the supplied value and every field it omits keeps its value; an empty edit changes nothing |
| App.PatchUser | App.tsx:224-226 | each of the nine user fields takes the supplied value when the edit supplies it and keeps its value when the edit omits it; an empty edit changes nothing |
| App.UpdateBalance | App.tsx:253-263 | the named balance gets the patch; the other balances and collections are unchanged |
| App.UpdateUser | App.tsx:219-237 | the named user gets the patch and the balance gets its patch in the same write; other users are unchanged |
| App.DeleteUser | App.tsx:239-251 | id "1" is never deleted; otherwise exactly that user and balance are removed, and attendance and requests stay |
| Workflow.SameDayIsOneDay | App.tsx:155 | a request that starts and ends on the same day counts one day |
| Workflow.SpanDays | App.tsx:153-155 | from a valid date to the date `k` days later counts `k + 1` days |
| Workflow.LookupIsFind | App.tsx:144-145 | in a well-formed store, looking up a request by key agrees with `find(r => r.id === id)` |
| Workflow.SubmitPreservesWellFormed | App.tsx:127-140 | submission keeps every request and record stored under its own id |
| Workflow.UpdateLeaveStatusPreservesWellFormed | App.tsx:142-193 | a decision keeps every request and record stored under its own id |
| Workflow.UpdateAttendancePreservesWellFormed | App.tsx:115-125 | writing attendance keeps every record stored under its own id |
| Workflow.ApprovalDebitsMatchingCounter | App.tsx:157-170 | approval lowers exactly the matching counter by the day count, adds it to `used`, and overwrites no other user's balance |
| Workflow.AbsentBalanceStartsFromDefault | App.tsx:157 | a requester with no balance is debited from the default entitlement: `d` days of AL leave 15 - d |
| Workflow.ApprovalWritesOneRecordPerDay | App.tsx:172-186 | approval adds exactly one record per day under the fresh ids, the i-th for `start + i`, and keeps all earlier records |
| Workflow.ApprovalRecordAt | App.tsx:179-185 | the record for the i-th day of an approval is stored under the i-th fresh id and dated `i` days after the start |
| Workflow.LoopDates | App.tsx:153-176 | the loop dates are consecutive and the last one is the end date |
| Workflow.ApprovalRecordDateAt | App.tsx:174-183 | the record for the i-th day is dated `i` days after the start |
| Workflow.ApprovalRecordsDistinctDates | App.tsx:173-185 | no day is booked twice: two records of one approval fall on different dates |
| Workflow.RecordsOnLoopDates | App.tsx:173-176 | records dated by the loop's steps have consecutive day numbers, and the last is dated on the end date |
| Workflow.ApprovalRecordDates | App.tsx:173-185 | the i-th record is dated `i` days after the start, and the last is dated on the end date |
| Workflow.ApprovalRecordStatus | App.tsx:177-184 | each record belongs to the requester; it is HOLIDAY exactly on a listed holiday, which is exactly when the classifier says HOLIDAY, and ON_LEAVE otherwise, weekends included |
| Workflow.ApprovalIgnoresUsers | App.tsx:142-193 | a decision does not read the user records, so the employee type plays no part |
| Workflow.ReversedRange | App.tsx:155-173 | an end date before the start gives a count of at most zero; no record is written, counters do not fall and `used` does not rise |
| Workflow.ApprovalBalance | App.tsx:157-170 | after approval the requester's balance is the debit of the balance approval started from |
| Workflow.DecisionKeepsDays | App.tsx:150 | a decision changes only the status, so a second decision sees the same requester, type and day count |
| Workflow.ApproveTwiceDebitsTwice | App.tsx:142-186 | with no pending-state guard, a second approval debits again and writes a second set of records |
| Workflow.RejectAfterApproveKeepsEffects | App.tsx:142-152 | rejecting an approved request flips its status but returns neither the days nor the records |
| Admin.ToggleTwice | App.tsx:106-111 | toggling twice restores the state |
| Admin.AddUserDefaults | App.tsx:203-211 | with no initial balance, a new user's balance equals `DEFAULT_LEAVE_BALANCE` for that user: the fallbacks of `addUser` agree with the default entitlement |
| Admin.AddUserInitialBalance | App.tsx:203-211 | each counter of a new balance is the supplied value or else the default; `used` is 0 whatever is supplied |
| Admin.DeleteUndoesAdd | App.tsx:195-251 | adding a user with a new id and then deleting them restores the store |
| Admin.AdminSurvivesDeletion | App.tsx:240 | user "1" and their balance survive every deletion unchanged |
| Admin.DeleteTwice | App.tsx:239-251 | deleting twice equals deleting once |
| Admin.UpdateBalanceNoChange | App.tsx:253-263 | an empty balance edit changes nothing |
| Admin.UpdateBalanceTwice | App.tsx:253-263 | two balance edits act as one in which the later fields win; repeating an edit changes nothing more |
| Admin.UpdateUserNoChange | App.tsx:219-237 | an edit with no fields changes nothing |
| Admin.UpdateUserTwice | App.tsx:219-237 | two user edits act as one in which the later fields win, on the user and the balance alike |
| Admin.UpdateUserIdempotent | App.tsx:219-237 | repeating a user edit changes nothing more |
| Admin.UpdateAttendanceIdempotent | App.tsx:115-125 | writing the same attendance records twice equals writing them once |
| App.SeedDatabase | App.tsx:74-93 | the seed touches only users and balances; what it writes there is stated by `Admin.SeedWritesUsers` and `Admin.SeedWritesBalances` |
| Admin.SeedKeys | App.tsx:81-84 | the seed writes the keys "1" to "4", each exactly once, in both collections |
| Admin.SeedWritesUsers | App.tsx:74-93 | the seed stores each initial user under its id and keeps users outside the seed |
| Admin.SeedWritesBalances | App.tsx:74-93 | the seed gives each initial user the default balance `DEFAULT_LEAVE_BALANCE` and keeps other balances |
| Admin.SeedTwice | App.tsx:74-93 | seeding twice equals seeding once |
| Scenarios.MarchAnnualLeave | App.tsx:152-186 | approving AL for 2026-03-02 to 2026-03-03 debits 2 AL days, adds 2 to `used`, and writes two ON_LEAVE records, one per day |
| Scenarios.NewYearInsideLeave | App.tsx:173-185 | a leave whose range includes 2026-01-01 gets a HOLIDAY record for that day, within the debited day count |
| Scenarios.NewYearOffset | App.tsx:173-176 | a valid range containing 2026-01-01 reaches it at a step inside the loop |

## Left out

- Database I/O is not modelled: subscriptions, `update`/`set` calls, and the `try`/`catch` error logging. Each write is modelled on its success path only; a write that fails is caught and logged and leaves the store as it was, and that branch is not modelled.
- React state, rendering, labels and colours are not modelled, nor are `LoginPage.tsx`, `handleLogin` and `handleLogout`. They hold no leave or attendance logic.
- Concurrency is not modelled: two clients writing at once, or a decision taken on a stale snapshot of the requests.
- `Math.random` ids and `new Date()` timestamps are parameters. The chance that a random id collides is outside the model; lemmas that need fresh ids assume them.
- Date strings that do not parse (`NaN` day counts) are not modelled; dates are well-formed triples. Lemmas about dates assume valid dates where they need them.
- Time zones are not modelled. The model takes the local date of a UTC-midnight timestamp to be that same date, with no daylight-saving change in the range. This holds in zones at or east of UTC without daylight saving, such as India Standard Time, where the application is used.
- Numbers are unbounded integers. Doubles beyond 2^53 are not modelled.
- App.UpdateUser: an edit of a user that does not exist leaves the users unchanged. The database would instead create a partial record holding only the patched fields.
- App.UpdateBalance: an edit of a balance that does not exist leaves the balances unchanged. The database would instead create a partial record holding only the patched fields.
- App.SeedDatabase: its own contract states only that attendance and requests are unchanged. What it writes is stated by `Admin.SeedWritesUsers` and `Admin.SeedWritesBalances`.
- The holiday table is the 2026 one only, as in the source. Other years get no holidays.
- `updateLeaveStatus` has no pending-state guard; see above.
