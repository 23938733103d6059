/**
 * Leave balances and leaves, and every operation that moves days between them. Days are counted
 * in hundredths, the precision of the stored decimals.
 */
module LeaveLedger {
  import opened Wrappers
  import B = BusinessDays

  type Id = nat

  datatype Date = Date(year: int, month: int, day: int) {
    predicate Before(that: Date) {
      year < that.year ||
      (year == that.year && (month < that.month || (month == that.month && day < that.day)))
    }
  }

  datatype TimeOption = FullDay | HalfDay | Hourly

  datatype LeaveType = LeaveType(id: Id, group: Id, deduction: nat, timeOption: TimeOption,
                                 paidHours: Option<nat>, isActive: bool)

  /** The leave types in the order the database lists them. */
  type Catalogue = seq<LeaveType>

  datatype Key = Key(employee: Id, leaveType: Id, year: int)

  datatype Balance = Balance(accrued: int, used: int, remaining: int, expiresAt: Option<Date>)

  datatype Leave = Leave(employee: Id, leaveType: Id, startDate: Date, endDate: Date, daysUsed: int)

  datatype Ledger = Ledger(balances: map<Key, Balance>, leaves: map<nat, Leave>, nextLeave: nat)

  /** The day numbers of dates and the holidays of the company. */
  datatype Calendar = Calendar(dayOf: Date -> B.Day, holidays: B.Holidays)

  datatype LeaveError =
    | LeaveTypeNotFound | LeaveTypeInactive | LeaveTimeSameDayOnly | LeaveTimeInvalid
    | LeaveTimeExceedsLimit | LeaveNotFound
    | LeaveBalanceNotFound | LeaveBalanceInsufficient | LeaveBalanceExpired

  /** A requested period; times are minutes of the day. */
  datatype Period = Period(startDate: Date, endDate: Date, startTime: Option<int>, endTime: Option<int>)

  /** A requested change of a period; a missing date keeps the stored one. */
  datatype Change = Change(startDate: Option<Date>, endDate: Option<Date>,
                           startTime: Option<int>, endTime: Option<int>)

  const DAY := 100
  const HOURS_PER_DAY := 8

  // ── Leave types ──

  function FindType(cat: Catalogue, id: Id): (r: Option<LeaveType>)
    ensures r.Some? ==> r.value in cat && r.value.id == id
    ensures r.None? <==> forall t :: t in cat ==> t.id != id
  {
    if cat == [] then None
    else if cat[0].id == id then Some(cat[0])
    else FindType(cat[1..], id)
  }

  function OfGroup(cat: Catalogue, group: Id): Catalogue {
    if cat == [] then []
    else (if cat[0].group == group then [cat[0]] else []) + OfGroup(cat[1..], group)
  }

  function ActiveTypes(cat: Catalogue): Catalogue {
    if cat == [] then []
    else (if cat[0].isActive then [cat[0]] else []) + ActiveTypes(cat[1..])
  }

  predicate IsRepresentative(t: LeaveType) {
    t.deduction == DAY && t.timeOption.FullDay?
  }

  function FirstRepresentative(cat: Catalogue): Option<LeaveType> {
    if cat == [] then None
    else if IsRepresentative(cat[0]) then Some(cat[0])
    else FirstRepresentative(cat[1..])
  }

  /** The type whose balance a leave of type `id` is charged to. */
  function ResolveBalanceType(cat: Catalogue, id: Id): Id {
    match FindType(cat, id)
    case None => id
    case Some(t) =>
      var types := OfGroup(cat, t.group);
      var pool := if ActiveTypes(types) != [] then ActiveTypes(types) else types;
      match FirstRepresentative(pool)
      case Some(rep) => rep.id
      case None => if pool == [] then id else pool[0].id
  }

  // ── Days of a leave ──

  function Minutes(startTime: Option<int>, endTime: Option<int>): int {
    if startTime.None? || endTime.None? then 0 else endTime.value - startTime.value
  }

  function Max(a: int, b: int): int {
    if a >= b then a else b
  }

  function UnitOf(t: LeaveType): int {
    if t.deduction > 0 then t.deduction else DAY
  }

  /** Business days of a period, both ends included. */
  function BusinessDaysIn(cal: Calendar, startDate: Date, endDate: Date): nat {
    |B.BusinessDaysOf(cal.dayOf(startDate), cal.dayOf(endDate), cal.holidays)|
  }

  /** Hourly leaves: hours at eight a day, rounded to hundredths of a day. Other leaves: business
      days, at least one, times the deduction of the type. */
  function ComputeDaysUsed(cal: Calendar, t: LeaveType, p: Period): Result<int, LeaveError> {
    if t.timeOption.Hourly? then
      var minutes := Minutes(p.startTime, p.endTime);
      if minutes <= 0 then Failure(LeaveTimeInvalid)
      else if t.paidHours.Some? && minutes > 60 * t.paidHours.value then Failure(LeaveTimeExceedsLimit)
      else Success((2 * minutes * DAY + 60 * HOURS_PER_DAY) / (2 * 60 * HOURS_PER_DAY))
    else
      Success(Max(1, BusinessDaysIn(cal, p.startDate, p.endDate)) * UnitOf(t))
  }

  /** Days of a leave entered by an administrator: calendar days, at least one. */
  function AdminDaysUsed(cal: Calendar, t: LeaveType, startDate: Date, endDate: Date): int {
    Max(1, cal.dayOf(endDate) - cal.dayOf(startDate) + 1) * UnitOf(t)
  }

  // ── Balances ──

  function Charge(b: Balance, days: int): Balance {
    b.(used := b.used + days, remaining := b.remaining - days)
  }

  /** updateMany by key: a missing row is silently left alone. */
  function ChargeRow(balances: map<Key, Balance>, key: Key, days: int): map<Key, Balance> {
    if key in balances then balances[key := Charge(balances[key], days)] else balances
  }

  function ValidateBalance(ledger: Ledger, key: Key, days: int, startDate: Date): Outcome<LeaveError> {
    if key !in ledger.balances then Fail(LeaveBalanceNotFound)
    else if ledger.balances[key].remaining < days then Fail(LeaveBalanceInsufficient)
    else if ledger.balances[key].expiresAt.Some? &&
            ledger.balances[key].expiresAt.value.Before(startDate) then Fail(LeaveBalanceExpired)
    else Pass
  }

  function AddLeave(ledger: Ledger, leave: Leave, key: Key): Ledger
    requires key in ledger.balances
  {
    Ledger(ledger.balances[key := Charge(ledger.balances[key], leave.daysUsed)],
           ledger.leaves[ledger.nextLeave := leave],
           ledger.nextLeave + 1)
  }

  /** The row a leave is charged to. */
  function ChargedKey(cat: Catalogue, leave: Leave): Key {
    Key(leave.employee, ResolveBalanceType(cat, leave.leaveType), leave.startDate.year)
  }

  // ── Approved requests ──

  function ApplyLeaveCreate(ledger: Ledger, cat: Catalogue, cal: Calendar,
                            employee: Id, typeId: Id, p: Period): Result<Ledger, LeaveError> {
    var found := FindType(cat, typeId);
    :- Need(found.Some?, LeaveTypeNotFound);
    var endDate := if found.value.timeOption.Hourly? then p.startDate else p.endDate;
    var days :- ComputeDaysUsed(cal, found.value, p.(endDate := endDate));
    var leave := Leave(employee, typeId, p.startDate, endDate, days);
    var key := ChargedKey(cat, leave);
    :- ValidateBalance(ledger, key, days, p.startDate);
    Success(AddLeave(ledger, leave, key))
  }

  predicate OwnLeave(ledger: Ledger, employee: Id, id: nat) {
    id in ledger.leaves && ledger.leaves[id].employee == employee
  }

  /** The leave as it reads after the change. */
  function Changed(cal: Calendar, t: LeaveType, leave: Leave, change: Change): Result<Leave, LeaveError> {
    var start := if change.startDate.Some? then change.startDate.value else leave.startDate;
    var end := if t.timeOption.Hourly? then start
      else if change.endDate.Some? then change.endDate.value else leave.endDate;
    var days :- ComputeDaysUsed(cal, t, Period(start, end, change.startTime, change.endTime));
    Success(leave.(startDate := start, endDate := end, daysUsed := days))
  }

  /** The difference in days goes to the row of the year the leave had before the change. */
  function ApplyLeaveModify(ledger: Ledger, cat: Catalogue, cal: Calendar,
                            employee: Id, id: nat, change: Change): Result<Ledger, LeaveError> {
    if !OwnLeave(ledger, employee, id) then Failure(LeaveNotFound) else
    var leave := ledger.leaves[id];
    var found := FindType(cat, leave.leaveType);
    :- Need(found.Some?, LeaveTypeNotFound);
    var changed :- Changed(cal, found.value, leave, change);
    var delta := changed.daysUsed - leave.daysUsed;
    var balances := if delta != 0 then ChargeRow(ledger.balances, ChargedKey(cat, leave), delta)
      else ledger.balances;
    Success(ledger.(balances := balances, leaves := ledger.leaves[id := changed]))
  }

  function ApplyLeaveDelete(ledger: Ledger, cat: Catalogue, employee: Id, id: nat): Result<Ledger, LeaveError> {
    if !OwnLeave(ledger, employee, id) then Failure(LeaveNotFound) else
    var leave := ledger.leaves[id];
    Success(ledger.(balances := ChargeRow(ledger.balances, ChargedKey(cat, leave), -leave.daysUsed),
                    leaves := ledger.leaves - {id}))
  }

  /** The check made when a leave is requested. */
  function ValidateLeaveRequest(ledger: Ledger, cat: Catalogue, cal: Calendar,
                                employee: Id, typeId: Id, p: Period): Outcome<LeaveError> {
    match FindType(cat, typeId)
    case None => Fail(LeaveTypeNotFound)
    case Some(t) =>
      if !t.isActive then Fail(LeaveTypeInactive)
      else if t.timeOption.Hourly? && p.startDate != p.endDate then Fail(LeaveTimeSameDayOnly)
      else match ComputeDaysUsed(cal, t, p)
        case Failure(e) => Fail(e)
        case Success(days) =>
          ValidateBalance(ledger, Key(employee, ResolveBalanceType(cat, typeId), p.startDate.year),
                          days, p.startDate)
  }

  // ── Administration and accrual ──

  /** A leave entered by an administrator is charged to its own type, not to the representative. */
  function AdminCreateLeave(ledger: Ledger, cat: Catalogue, cal: Calendar, employee: Id, typeId: Id,
                            startDate: Date, endDate: Date): Result<Ledger, LeaveError> {
    var found := FindType(cat, typeId);
    :- Need(found.Some?, LeaveTypeNotFound);
    var days := AdminDaysUsed(cal, found.value, startDate, endDate);
    var key := Key(employee, typeId, startDate.year);
    :- ValidateBalance(ledger, key, days, startDate);
    Success(AddLeave(ledger, Leave(employee, typeId, startDate, endDate, days), key))
  }

  /** Manual and compensation grants add to the row, or create it. */
  function UpsertAccrued(ledger: Ledger, key: Key, days: int, expiresAt: Option<Date>): Ledger {
    var row := if key !in ledger.balances then Balance(days, 0, days, expiresAt)
      else var b := ledger.balances[key];
        Balance(b.accrued + days, b.used, b.remaining + days,
                if expiresAt.Some? then expiresAt else b.expiresAt);
    ledger.(balances := ledger.balances[key := row])
  }

  /** Raise the accrued days of a row to a target, never lower them; says whether it changed. */
  function ApplyAccrualTarget(ledger: Ledger, key: Key, target: int, expiresAt: Option<Date>): (Ledger, bool) {
    if key !in ledger.balances then
      (ledger.(balances := ledger.balances[key := Balance(target, 0, target, expiresAt)]), true)
    else
      var b := ledger.balances[key];
      var delta := target - b.accrued;
      if delta <= 0 then (ledger, false)
      else (ledger.(balances := ledger.balances[key :=
              Balance(target, b.used, b.remaining + delta,
                      if expiresAt.Some? then expiresAt else b.expiresAt)]), true)
  }

  predicate Overdue(b: Balance, today: Date) {
    b.expiresAt.Some? && b.expiresAt.value.Before(today) && b.remaining > 0
  }

  /** The daily job: what is left of an expired row is forfeited. */
  function ExpireOverdue(ledger: Ledger, today: Date): Ledger {
    ledger.(balances := map key | key in ledger.balances ::
      if Overdue(ledger.balances[key], today) then ledger.balances[key].(remaining := 0)
      else ledger.balances[key])
  }

  // ── Operations ──

  datatype LedgerOp =
    | LeaveCreated(employee: Id, typeId: Id, period: Period)
    | LeaveModified(employee: Id, leave: nat, change: Change)
    | LeaveDeleted(employee: Id, leave: nat)
    | AdminLeave(employee: Id, typeId: Id, startDate: Date, endDate: Date)
    | Grant(key: Key, days: int, expiresAt: Option<Date>)
    | AccrualTarget(key: Key, target: int, expiresAt: Option<Date>)
    | ExpiryJob(today: Date)

  function ApplyOp(ledger: Ledger, cat: Catalogue, cal: Calendar, op: LedgerOp): Result<Ledger, LeaveError> {
    match op
    case LeaveCreated(e, t, p) => ApplyLeaveCreate(ledger, cat, cal, e, t, p)
    case LeaveModified(e, id, change) => ApplyLeaveModify(ledger, cat, cal, e, id, change)
    case LeaveDeleted(e, id) => ApplyLeaveDelete(ledger, cat, e, id)
    case AdminLeave(e, t, s, end) => AdminCreateLeave(ledger, cat, cal, e, t, s, end)
    case Grant(key, days, exp) => Success(UpsertAccrued(ledger, key, days, exp))
    case AccrualTarget(key, target, exp) => Success(ApplyAccrualTarget(ledger, key, target, exp).0)
    case ExpiryJob(today) => Success(ExpireOverdue(ledger, today))
  }

  /** An operation that throws changes nothing. */
  function Settle(ledger: Ledger, cat: Catalogue, cal: Calendar, op: LedgerOp): Ledger {
    match ApplyOp(ledger, cat, cal, op)
    case Success(after) => after
    case Failure(_) => ledger
  }

  function Run(ledger: Ledger, cat: Catalogue, cal: Calendar, ops: seq<LedgerOp>): Ledger {
    if ops == [] then ledger
    else Settle(Run(ledger, cat, cal, ops[..|ops| - 1]), cat, cal, ops[|ops| - 1])
  }

  const EMPTY_LEDGER := Ledger(map[], map[], 0)
}
