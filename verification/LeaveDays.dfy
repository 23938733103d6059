/** How many days a leave is charged, and what charging, changing and deleting it does to the ledger. */
module LeaveDays {
  import opened Wrappers
  import opened LeaveLedger
  import opened BusinessDays

  /** The days one day of a leave costs: the deduction of its type, a whole day if it has none. */
  function CostOfDay(t: LeaveType): int {
    if t.deduction == 0 then DAY else t.deduction
  }

  // ── Leaves of whole days ──

  /** A leave of days costs its business days, at least one, each as its type says. */
  lemma DailyCharge(cal: Calendar, t: LeaveType, p: Period)
    requires !t.timeOption.Hourly?
    ensures var n := |BusinessDaysOf(cal.dayOf(p.startDate), cal.dayOf(p.endDate), cal.holidays)|;
            ComputeDaysUsed(cal, t, p) == Success(if n == 0 then CostOfDay(t) else n * CostOfDay(t))
  {
  }

  /** Two leaves instead of one cost the same exactly when there are business days in both parts. */
  lemma SplitChargesSameIff(cal: Calendar, t: LeaveType, p: Period, middle: Date, next: Date)
    requires !t.timeOption.Hourly? && cal.dayOf(p.startDate) <= cal.dayOf(middle) <= cal.dayOf(p.endDate)
    requires cal.dayOf(next) == cal.dayOf(middle) + 1
    ensures var whole, first, second := ComputeDaysUsed(cal, t, p), ComputeDaysUsed(cal, t, p.(endDate := middle)),
                                        ComputeDaysUsed(cal, t, p.(startDate := next));
            && whole.Success? && first.Success? && second.Success?
            && (whole.value == first.value + second.value <==>
                BusinessDaysIn(cal, p.startDate, middle) > 0 && BusinessDaysIn(cal, next, p.endDate) > 0)
  {
    var a, b := BusinessDaysIn(cal, p.startDate, middle), BusinessDaysIn(cal, next, p.endDate);
    SplitAddsUp(cal.dayOf(p.startDate), cal.dayOf(middle), cal.dayOf(p.endDate), cal.holidays);
    SplitProduct(a, b, UnitOf(t));
  }

  lemma SplitProduct(a: nat, b: nat, unit: int)
    requires unit > 0
    ensures Max(1, a + b) * unit == Max(1, a) * unit + Max(1, b) * unit <==> a > 0 && b > 0
  {
    assert Max(1, a) * unit + Max(1, b) * unit == (Max(1, a) + Max(1, b)) * unit;
    if a == 0 || b == 0 {
      assert Max(1, a) + Max(1, b) == Max(1, a + b) + 1;
      assert (Max(1, a + b) + 1) * unit == Max(1, a + b) * unit + unit;
    }
  }

  /** From Monday to Friday of a week without holidays: five days. */
  lemma WeekCostsFiveDays(cal: Calendar, t: LeaveType, monday: Date, friday: Date)
    requires Weekday(cal.dayOf(monday)) == 1 && cal.dayOf(friday) == cal.dayOf(monday) + 4
    requires cal.holidays.exact == {} && cal.holidays.repeating == {} && t.timeOption.FullDay? && t.deduction == DAY
    ensures ComputeDaysUsed(cal, t, Period(monday, friday, None, None)) == Success(5 * DAY)
  {
    var d := cal.dayOf(monday);
    assert forall k | d <= k <= d + 4 :: IsBusinessDay(k, cal.holidays);
    assert BusinessDaysOf(d, d + 4, cal.holidays) == {d, d + 1, d + 2, d + 3, d + 4};
  }

  // ── Leaves of hours ──

  /** A leave of hours is refused exactly when it does not end after it starts, or is longer than its
      type pays; else it costs its part of eight hours, to the nearest hundredth of a day. */
  lemma HourlyCharge(cal: Calendar, t: LeaveType, p: Period)
    requires t.timeOption.Hourly?
    ensures var r, minutes := ComputeDaysUsed(cal, t, p), Minutes(p.startTime, p.endTime);
            && (r == Failure(LeaveTimeInvalid) <==> minutes <= 0)
            && (r == Failure(LeaveTimeExceedsLimit) <==> minutes > 0 && t.paidHours.Some? && minutes > 60 * t.paidHours.value)
            && (r.Failure? ==> r.error.LeaveTimeInvalid? || r.error.LeaveTimeExceedsLimit?)
            && (r.Success? ==> -240 < 480 * r.value - DAY * minutes <= 240)
  {
  }

  lemma EightHoursAreOneDay(cal: Calendar, t: LeaveType, p: Period, days: nat)
    requires t.timeOption.Hourly? && ComputeDaysUsed(cal, t, p).Success?
    requires Minutes(p.startTime, p.endTime) == 480 * days
    ensures ComputeDaysUsed(cal, t, p).value == DAY * days
  {
    HourlyCharge(cal, t, p);
  }

  // ── What happens to the rows ──

  /** The row at `key` moves `days` from remaining to used; no other row changes. */
  ghost predicate Moved(before: map<Key, Balance>, after: map<Key, Balance>, key: Key, days: int) {
    && after.Keys == before.Keys
    && (forall k :: k in before && k != key ==> after[k] == before[k])
    && (key in before ==>
          && after[key].used == before[key].used + days && after[key].remaining == before[key].remaining - days
          && after[key].accrued == before[key].accrued && after[key].expiresAt == before[key].expiresAt)
  }

  /** Some row can pay for a leave that starts on a day. */
  predicate CanPay(ledger: Ledger, key: Key, days: int, startDate: Date) {
    && key in ledger.balances && ledger.balances[key].remaining >= days
    && (ledger.balances[key].expiresAt.None? || !ledger.balances[key].expiresAt.value.Before(startDate))
  }

  lemma PaysIff(ledger: Ledger, key: Key, days: int, startDate: Date)
    ensures ValidateBalance(ledger, key, days, startDate).Pass? <==> CanPay(ledger, key, days, startDate)
  {
  }

  /** The period a leave of the type covers: an hourly leave has one day. */
  function Covered(t: LeaveType, p: Period): Period {
    if t.timeOption.Hourly? then p.(endDate := p.startDate) else p
  }

  /** A leave is created exactly if its type exists, its days can be computed and the row of its year can
      pay them; it is stored with these days, and the row moves them. */
  lemma CreateCharges(ledger: Ledger, cat: Catalogue, cal: Calendar, e: Id, typeId: Id, p: Period)
    ensures var r, found := ApplyLeaveCreate(ledger, cat, cal, e, typeId, p), FindType(cat, typeId);
            && (found.None? ==> r == Failure(LeaveTypeNotFound))
            && (found.Some? ==>
                 var days, key := ComputeDaysUsed(cal, found.value, Covered(found.value, p)),
                                  Key(e, ResolveBalanceType(cat, typeId), p.startDate.year);
                 && (r.Success? <==> days.Success? && CanPay(ledger, key, days.value, p.startDate))
                 && (r.Success? ==>
                      && r.value.nextLeave == ledger.nextLeave + 1
                      && r.value.leaves == ledger.leaves[ledger.nextLeave :=
                           Leave(e, typeId, p.startDate, Covered(found.value, p).endDate, days.value)]
                      && Moved(ledger.balances, r.value.balances, key, days.value)
                      && r.value.balances[key].remaining >= 0))
  {
    var found := FindType(cat, typeId);
    if found.Some? {
      var days := ComputeDaysUsed(cal, found.value, Covered(found.value, p));
      if days.Success? {
        PaysIff(ledger, Key(e, ResolveBalanceType(cat, typeId), p.startDate.year), days.value, p.startDate);
      }
    }
  }

  /** The period a change asks for; an hourly leave has one day. */
  function Requested(t: LeaveType, leave: Leave, change: Change): Period {
    var start := if change.startDate.None? then leave.startDate else change.startDate.value;
    var end := if change.endDate.None? then leave.endDate else change.endDate.value;
    Covered(t, Period(start, end, change.startTime, change.endTime))
  }

  /** A leave is changed exactly if it is the employee's, its type still exists and the new days can be
      computed; it then has the new dates and days, and the difference moves on the row of its old year. */
  lemma ModifyCharges(ledger: Ledger, cat: Catalogue, cal: Calendar, e: Id, id: nat, change: Change)
    ensures var r := ApplyLeaveModify(ledger, cat, cal, e, id, change);
            && (r.Success? ==> id in ledger.leaves && ledger.leaves[id].employee == e)
            && (id in ledger.leaves && ledger.leaves[id].employee == e ==>
                 var leave, found := ledger.leaves[id], FindType(cat, ledger.leaves[id].leaveType);
                 && (r.Success? <==> found.Some? && ComputeDaysUsed(cal, found.value, Requested(found.value, leave, change)).Success?)
                 && (r.Success? ==>
                      var p, days := Requested(found.value, leave, change),
                                     ComputeDaysUsed(cal, found.value, Requested(found.value, leave, change)).value;
                      && r.value.nextLeave == ledger.nextLeave
                      && r.value.leaves == ledger.leaves[id := Leave(e, leave.leaveType, p.startDate, p.endDate, days)]
                      && Moved(ledger.balances, r.value.balances,
                               Key(e, ResolveBalanceType(cat, leave.leaveType), leave.startDate.year), days - leave.daysUsed)))
  {
  }

  /** A leave is deleted exactly if it is the employee's, and its days go back to the row of its year. */
  lemma DeleteGivesBack(ledger: Ledger, cat: Catalogue, e: Id, id: nat)
    ensures var r := ApplyLeaveDelete(ledger, cat, e, id);
            && (r.Success? <==> id in ledger.leaves && ledger.leaves[id].employee == e)
            && (r.Success? ==>
                 var leave := ledger.leaves[id];
                 && r.value.nextLeave == ledger.nextLeave && r.value.leaves == ledger.leaves - {id}
                 && Moved(ledger.balances, r.value.balances,
                          Key(e, ResolveBalanceType(cat, leave.leaveType), leave.startDate.year), -leave.daysUsed))
  {
  }

  /** A leave entered by an administrator costs the days of its period, weekends and holidays included and
      at least one, each as its type says, on the row of its own type. */
  lemma AdminCharges(ledger: Ledger, cat: Catalogue, cal: Calendar, e: Id, typeId: Id, startDate: Date, endDate: Date)
    ensures var r, found := AdminCreateLeave(ledger, cat, cal, e, typeId, startDate, endDate), FindType(cat, typeId);
            && (found.None? ==> r == Failure(LeaveTypeNotFound))
            && (found.Some? ==>
                 var length := cal.dayOf(endDate) - cal.dayOf(startDate) + 1;
                 var days := if length < 1 then CostOfDay(found.value) else length * CostOfDay(found.value);
                 var key := Key(e, typeId, startDate.year);
                 && (r.Success? <==> CanPay(ledger, key, days, startDate))
                 && (r.Success? ==>
                      && r.value.leaves == ledger.leaves[ledger.nextLeave := Leave(e, typeId, startDate, endDate, days)]
                      && Moved(ledger.balances, r.value.balances, key, days)))
  {
  }

  // ── Asking and being approved ──

  /** A request that passes the check made when it is handed in could be approved at once; and an approval
      would have passed that check unless the type is inactive or an hourly leave was asked for two days. */
  lemma CheckedIsApprovableIff(ledger: Ledger, cat: Catalogue, cal: Calendar, e: Id, typeId: Id, p: Period)
    ensures ValidateLeaveRequest(ledger, cat, cal, e, typeId, p).Pass? <==>
            && ApplyLeaveCreate(ledger, cat, cal, e, typeId, p).Success?
            && FindType(cat, typeId).value.isActive
            && (FindType(cat, typeId).value.timeOption.Hourly? ==> p.startDate == p.endDate)
  {
    var found := FindType(cat, typeId);
    if found.Some? && p.startDate == p.endDate {
      assert p.(endDate := p.startDate) == p;
    }
  }

  // ── Grants and expiry ──

  /** Dates are ordered by year, then month, then day. */
  lemma DatesInOrder(a: Date, b: Date, c: Date)
    ensures a.year < b.year ==> a.Before(b)
    ensures a.year == b.year && a.month < b.month ==> a.Before(b)
    ensures a.year == b.year && a.month == b.month && a.day < b.day ==> a.Before(b)
    ensures a == b || a.Before(b) || b.Before(a)
    ensures !(a.Before(b) && b.Before(a)) && !a.Before(a)
    ensures a.Before(b) && b.Before(c) ==> a.Before(c)
  {
  }

  /** A grant, and a target that raises the row, set the expiry date they bring and else keep the row's. */
  lemma ExpiryFollowsGrants(ledger: Ledger, key: Key, days: int, expiresAt: Option<Date>)
    ensures var was := if key in ledger.balances then ledger.balances[key].expiresAt else None;
            var grant, target := UpsertAccrued(ledger, key, days, expiresAt), ApplyAccrualTarget(ledger, key, days, expiresAt);
            && key in grant.balances && grant.balances[key].expiresAt == (if expiresAt.Some? then expiresAt else was)
            && key in target.0.balances
            && (target.1 <==> key !in ledger.balances || ledger.balances[key].accrued < days)
            && target.0.balances[key].expiresAt == (if target.1 && expiresAt.Some? then expiresAt else was)
  {
  }

  /** The daily job takes what is left of a row exactly if its expiry date has passed. */
  lemma ExpiryForfeits(ledger: Ledger, today: Date, key: Key)
    requires key in ledger.balances
    ensures var was, after := ledger.balances[key], ExpireOverdue(ledger, today);
            && key in after.balances && after.leaves == ledger.leaves && after.balances.Keys == ledger.balances.Keys
            && after.balances[key].accrued == was.accrued && after.balances[key].used == was.used
            && after.balances[key].expiresAt == was.expiresAt
            && after.balances[key].remaining ==
               (if was.expiresAt.Some? && was.expiresAt.value.Before(today) && was.remaining > 0 then 0 else was.remaining)
  {
  }
}
