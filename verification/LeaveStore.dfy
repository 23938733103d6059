/** The stored ledger and the service methods that update its rows in place. */
module LeaveStore {
  import opened Wrappers
  import opened LeaveLedger
  import opened LeaveAccrual
  import B = BusinessDays

  class Store {
    const cat: Catalogue
    const cal: Calendar
    var balances: map<Key, Balance>
    var leaves: map<nat, Leave>
    var nextLeave: nat

    ghost function View(): Ledger
      reads this
    {
      Ledger(balances, leaves, nextLeave)
    }

    /** The outcome of a call that the ledger transition `spec` describes. */
    ghost predicate Answers(was: Ledger, spec: Result<Ledger, LeaveError>, r: Outcome<LeaveError>)
      reads this
    {
      match spec
      case Success(after) => r.Pass? && View() == after
      case Failure(e) => r == Fail(e) && View() == was
    }

    constructor (cat: Catalogue, cal: Calendar)
      ensures View() == EMPTY_LEDGER && this.cat == cat && this.cal == cal
    {
      this.cat, this.cal := cat, cal;
      balances, leaves, nextLeave := map[], map[], 0;
    }

    method CheckBalance(key: Key, days: int, startDate: Date) returns (r: Outcome<LeaveError>)
      ensures r == ValidateBalance(View(), key, days, startDate)
    {
      if key !in balances { return Fail(LeaveBalanceNotFound); }
      var b := balances[key];
      if b.remaining < days { return Fail(LeaveBalanceInsufficient); }
      if b.expiresAt.Some? && b.expiresAt.value.Before(startDate) { return Fail(LeaveBalanceExpired); }
      return Pass;
    }

    /** The days of a leave: hours of an hourly one, else the business days the loop counts. */
    method ComputeLeaveDaysUsed(t: LeaveType, p: Period) returns (days: Result<int, LeaveError>)
      ensures days == ComputeDaysUsed(cal, t, p)
    {
      if t.timeOption.Hourly? {
        var minutes := Minutes(p.startTime, p.endTime);
        if minutes <= 0 { return Failure(LeaveTimeInvalid); }
        if t.paidHours.Some? && minutes > 60 * t.paidHours.value { return Failure(LeaveTimeExceedsLimit); }
        return Success((2 * minutes * DAY + 60 * HOURS_PER_DAY) / (2 * 60 * HOURS_PER_DAY));
      }
      var businessDays := B.CountBusinessDays(cal.dayOf(p.startDate), cal.dayOf(p.endDate), cal.holidays);
      return Success(Max(1, businessDays) * UnitOf(t));
    }

    /** Insert the leave, then charge the row. */
    method InsertLeave(leave: Leave, key: Key)
      requires key in balances
      modifies this
      ensures View() == AddLeave(old(View()), leave, key)
    {
      leaves := leaves[nextLeave := leave];
      nextLeave := nextLeave + 1;
      balances := balances[key := Charge(balances[key], leave.daysUsed)];
    }

    method CreateApproved(employee: Id, typeId: Id, p: Period) returns (r: Outcome<LeaveError>)
      modifies this
      ensures Answers(old(View()), ApplyLeaveCreate(old(View()), cat, cal, employee, typeId, p), r)
    {
      var found := FindType(cat, typeId);
      if found.None? { return Fail(LeaveTypeNotFound); }
      var endDate := if found.value.timeOption.Hourly? then p.startDate else p.endDate;
      var days := ComputeLeaveDaysUsed(found.value, p.(endDate := endDate));
      if days.Failure? { return Fail(days.error); }
      var key := Key(employee, ResolveBalanceType(cat, typeId), p.startDate.year);
      var checked := CheckBalance(key, days.value, p.startDate);
      if checked.Fail? { return checked; }
      InsertLeave(Leave(employee, typeId, p.startDate, endDate, days.value), key);
      r := Pass;
    }

    method ModifyApproved(employee: Id, id: nat, change: Change) returns (r: Outcome<LeaveError>)
      modifies this
      ensures Answers(old(View()), ApplyLeaveModify(old(View()), cat, cal, employee, id, change), r)
    {
      if id !in leaves || leaves[id].employee != employee { return Fail(LeaveNotFound); }
      var leave := leaves[id];
      var found := FindType(cat, leave.leaveType);
      if found.None? { return Fail(LeaveTypeNotFound); }
      var start := if change.startDate.Some? then change.startDate.value else leave.startDate;
      var end := if found.value.timeOption.Hourly? then start
        else if change.endDate.Some? then change.endDate.value else leave.endDate;
      var days := ComputeLeaveDaysUsed(found.value, Period(start, end, change.startTime, change.endTime));
      if days.Failure? { return Fail(days.error); }
      var delta := days.value - leave.daysUsed;
      leaves := leaves[id := leave.(startDate := start, endDate := end, daysUsed := days.value)];
      if delta != 0 {
        balances := ChargeRow(balances, Key(employee, ResolveBalanceType(cat, leave.leaveType), leave.startDate.year), delta);
      }
      r := Pass;
    }

    method DeleteApproved(employee: Id, id: nat) returns (r: Outcome<LeaveError>)
      modifies this
      ensures Answers(old(View()), ApplyLeaveDelete(old(View()), cat, employee, id), r)
    {
      if id !in leaves || leaves[id].employee != employee { return Fail(LeaveNotFound); }
      var leave := leaves[id];
      leaves := leaves - {id};
      balances := ChargeRow(balances, ChargedKey(cat, leave), -leave.daysUsed);
      r := Pass;
    }

    method CreateLeave(employee: Id, typeId: Id, startDate: Date, endDate: Date) returns (r: Outcome<LeaveError>)
      modifies this
      ensures Answers(old(View()), AdminCreateLeave(old(View()), cat, cal, employee, typeId, startDate, endDate), r)
    {
      var found := FindType(cat, typeId);
      if found.None? { return Fail(LeaveTypeNotFound); }
      var days := AdminDaysUsed(cal, found.value, startDate, endDate);
      var key := Key(employee, typeId, startDate.year);
      var checked := CheckBalance(key, days, startDate);
      if checked.Fail? { return checked; }
      InsertLeave(Leave(employee, typeId, startDate, endDate, days), key);
      r := Pass;
    }

    method GrantDays(key: Key, days: int, expiresAt: Option<Date>)
      modifies this
      ensures View() == UpsertAccrued(old(View()), key, days, expiresAt)
    {
      if key in balances {
        var b := balances[key];
        b := b.(accrued := b.accrued + days, remaining := b.remaining + days);
        if expiresAt.Some? { b := b.(expiresAt := expiresAt); }
        balances := balances[key := b];
      } else {
        balances := balances[key := Balance(days, 0, days, expiresAt)];
      }
    }

    method ApplyTarget(key: Key, target: int, expiresAt: Option<Date>) returns (applied: bool)
      modifies this
      ensures (View(), applied) == ApplyAccrualTarget(old(View()), key, target, expiresAt)
    {
      if key !in balances {
        balances := balances[key := Balance(target, 0, target, expiresAt)];
        return true;
      }
      var b := balances[key];
      var delta := target - b.accrued;
      if delta <= 0 { return false; }
      b := b.(accrued := target, remaining := b.remaining + delta);
      if expiresAt.Some? { b := b.(expiresAt := expiresAt); }
      balances := balances[key := b];
      return true;
    }

    /** The type is picked once, then the employees are processed in turn. */
    method RunAccrualRule(group: Id, items: seq<RuleItem>, employees: seq<Employee>,
                          year: int, today: Date, expiry: ExpiryOf) returns (processed: nat)
      modifies this
      ensures (View(), processed) ==
              RunGroupRule(old(View()), cat, group, items, employees, year, ClampToYear(today, year), expiry)
    {
      var target := PickRepresentativeLeaveType(ActiveTypesOf(cat, group));
      if target.None? { return 0; }
      var reference := ClampToYear(today, year);
      processed := 0;
      for i := 0 to |employees|
        invariant (View(), processed) ==
                  RunRule(old(View()), target.value.id, items, employees[..i], year, reference, expiry)
      {
        assert employees[..i + 1][..i] == employees[..i];
        var accrual := AccrualFor(items, employees[i], year, reference, expiry);
        if accrual.Some? {
          var applied := ApplyTarget(Key(employees[i].id, target.value.id, year),
                                     accrual.value.targetDays, accrual.value.expiresAt);
          if applied { processed := processed + 1; }
        }
      }
      assert employees[..|employees|] == employees;
    }

    method ExpireOverdueBalances(today: Date)
      modifies this
      ensures View() == ExpireOverdue(old(View()), today)
    {
      ghost var was := balances;
      var todo := balances.Keys;
      while todo != {}
        invariant todo <= balances.Keys == was.Keys
        invariant leaves == old(leaves) && nextLeave == old(nextLeave)
        invariant forall key :: key in was ==>
          balances[key] == (if key !in todo && Overdue(was[key], today) then was[key].(remaining := 0) else was[key])
        decreases |todo|
      {
        var key :| key in todo;
        if Overdue(balances[key], today) {
          balances := balances[key := balances[key].(remaining := 0)];
        }
        todo := todo - {key};
      }
    }

    /** Any operation on the ledger; one that throws leaves it as it was. */
    method Handle(op: LedgerOp) returns (r: Outcome<LeaveError>)
      modifies this
      ensures Answers(old(View()), ApplyOp(old(View()), cat, cal, op), r)
      ensures View() == Settle(old(View()), cat, cal, op)
    {
      r := Pass;
      match op {
        case LeaveCreated(e, t, p) => r := CreateApproved(e, t, p);
        case LeaveModified(e, id, change) => r := ModifyApproved(e, id, change);
        case LeaveDeleted(e, id) => r := DeleteApproved(e, id);
        case AdminLeave(e, t, startDate, endDate) => r := CreateLeave(e, t, startDate, endDate);
        case Grant(key, days, expiresAt) => GrantDays(key, days, expiresAt);
        case AccrualTarget(key, target, expiresAt) => var _ := ApplyTarget(key, target, expiresAt);
        case ExpiryJob(today) => ExpireOverdueBalances(today);
      }
    }
  }
}
