/** Conservation laws of the leave ledger. */
module LeaveLedgerLaws {
  import opened Wrappers
  import opened LeaveLedger
  import B = BusinessDays

  // ── The days charged to a row ──

  function Share(cat: Catalogue, leaves: map<nat, Leave>, key: Key, id: nat): int {
    if id in leaves && ChargedKey(cat, leaves[id]) == key then leaves[id].daysUsed else 0
  }

  /** The days of the live leaves with ids below `n` that are charged to `key`. */
  function SumCharged(cat: Catalogue, leaves: map<nat, Leave>, key: Key, n: nat): int {
    if n == 0 then 0 else SumCharged(cat, leaves, key, n - 1) + Share(cat, leaves, key, n - 1)
  }

  lemma {:induction false} SumChanges(cat: Catalogue, before: map<nat, Leave>, after: map<nat, Leave>,
                                      key: Key, id: nat, n: nat)
    requires forall j: nat :: j != id ==> Share(cat, after, key, j) == Share(cat, before, key, j)
    ensures SumCharged(cat, after, key, n) == SumCharged(cat, before, key, n) +
            if id < n then Share(cat, after, key, id) - Share(cat, before, key, id) else 0
  {
    if n > 0 {
      SumChanges(cat, before, after, key, id, n - 1);
    }
  }

  ghost predicate WellFormed(ledger: Ledger, cat: Catalogue) {
    forall id :: id in ledger.leaves ==>
      id < ledger.nextLeave && FindType(cat, ledger.leaves[id].leaveType).Some?
  }

  /** Every leave is charged to an existing row, and a row's used days are the sum of its leaves. */
  ghost predicate Sound(ledger: Ledger, cat: Catalogue) {
    && WellFormed(ledger, cat)
    && (forall id :: id in ledger.leaves ==> ChargedKey(cat, ledger.leaves[id]) in ledger.balances)
    && (forall key :: key in ledger.balances ==>
         ledger.balances[key].used == SumCharged(cat, ledger.leaves, key, ledger.nextLeave))
  }

  // ── When an operation keeps used = sum of leaves ──

  lemma AddLeaveSum(ledger: Ledger, cat: Catalogue, leave: Leave, key: Key, k: Key)
    requires WellFormed(ledger, cat) && key in ledger.balances
    ensures SumCharged(cat, AddLeave(ledger, leave, key).leaves, k, ledger.nextLeave + 1) ==
            SumCharged(cat, ledger.leaves, k, ledger.nextLeave) +
            if ChargedKey(cat, leave) == k then leave.daysUsed else 0
  {
    SumChanges(cat, ledger.leaves, AddLeave(ledger, leave, key).leaves, k, ledger.nextLeave, ledger.nextLeave + 1);
  }

  /** A new leave of some days keeps the books iff it is charged to the row its type resolves to. */
  lemma AddLeaveKeepsSumIff(ledger: Ledger, cat: Catalogue, leave: Leave, key: Key)
    requires Sound(ledger, cat) && key in ledger.balances && FindType(cat, leave.leaveType).Some?
    ensures ChargedKey(cat, leave) == key ==> Sound(AddLeave(ledger, leave, key), cat)
    ensures leave.daysUsed != 0 && Sound(AddLeave(ledger, leave, key), cat) ==> ChargedKey(cat, leave) == key
  {
    var after := AddLeave(ledger, leave, key);
    forall k | k in ledger.balances
      ensures SumCharged(cat, after.leaves, k, after.nextLeave) ==
              SumCharged(cat, ledger.leaves, k, ledger.nextLeave) +
              if ChargedKey(cat, leave) == k then leave.daysUsed else 0
    {
      AddLeaveSum(ledger, cat, leave, key, k);
    }
    assert after.leaves[ledger.nextLeave] == leave;
    assert key in after.balances;
  }

  lemma ApprovedLeaveKeepsSum(ledger: Ledger, cat: Catalogue, cal: Calendar, e: Id, t: Id, p: Period)
    requires Sound(ledger, cat) && ApplyLeaveCreate(ledger, cat, cal, e, t, p).Success?
    ensures Sound(ApplyLeaveCreate(ledger, cat, cal, e, t, p).value, cat)
  {
    var found := FindType(cat, t).value;
    var endDate := if found.timeOption.Hourly? then p.startDate else p.endDate;
    var days := ComputeDaysUsed(cal, found, p.(endDate := endDate)).value;
    var leave := Leave(e, t, p.startDate, endDate, days);
    AddLeaveKeepsSumIff(ledger, cat, leave, ChargedKey(cat, leave));
  }

  /** A leave entered by an administrator keeps the books iff its type is the one its group's
      balances are kept in. */
  lemma AdminLeaveKeepsSumIff(ledger: Ledger, cat: Catalogue, cal: Calendar, e: Id, t: Id,
                              startDate: Date, endDate: Date)
    requires Sound(ledger, cat) && AdminCreateLeave(ledger, cat, cal, e, t, startDate, endDate).Success?
    ensures Sound(AdminCreateLeave(ledger, cat, cal, e, t, startDate, endDate).value, cat) <==>
            ResolveBalanceType(cat, t) == t
  {
    var found := FindType(cat, t).value;
    var days := AdminDaysUsed(cal, found, startDate, endDate);
    DaysArePositive(Max(1, cal.dayOf(endDate) - cal.dayOf(startDate) + 1), UnitOf(found));
    var leave := Leave(e, t, startDate, endDate, days);
    AddLeaveKeepsSumIff(ledger, cat, leave, Key(e, t, startDate.year));
  }

  lemma DaysArePositive(days: int, unit: int)
    requires days >= 1 && unit >= 1
    ensures days * unit >= 1
  {
  }

  lemma ModifySum(ledger: Ledger, cat: Catalogue, id: nat, changed: Leave, k: Key)
    requires WellFormed(ledger, cat) && id in ledger.leaves
    ensures SumCharged(cat, ledger.leaves[id := changed], k, ledger.nextLeave) ==
            SumCharged(cat, ledger.leaves, k, ledger.nextLeave)
            - (if ChargedKey(cat, ledger.leaves[id]) == k then ledger.leaves[id].daysUsed else 0)
            + (if ChargedKey(cat, changed) == k then changed.daysUsed else 0)
  {
    SumChanges(cat, ledger.leaves, ledger.leaves[id := changed], k, id, ledger.nextLeave);
  }

  /** By how much a row's used days exceed its leaves after a modification. */
  lemma ModifiedGap(ledger: Ledger, cat: Catalogue, cal: Calendar, e: Id, id: nat, change: Change, k: Key)
    requires Sound(ledger, cat) && ApplyLeaveModify(ledger, cat, cal, e, id, change).Success? && k in ledger.balances
    ensures var after := ApplyLeaveModify(ledger, cat, cal, e, id, change).value;
            id in after.leaves && id in ledger.leaves && k in after.balances &&
            var days := after.leaves[id].daysUsed;
            after.balances[k].used - SumCharged(cat, after.leaves, k, after.nextLeave) ==
              (if ChargedKey(cat, ledger.leaves[id]) == k then days else 0) -
              (if ChargedKey(cat, after.leaves[id]) == k then days else 0)
  {
    ModifySum(ledger, cat, id, ApplyLeaveModify(ledger, cat, cal, e, id, change).value.leaves[id], k);
  }

  lemma ModifiedBooks(ledger: Ledger, cat: Catalogue, cal: Calendar, e: Id, id: nat, change: Change)
    requires Sound(ledger, cat) && ApplyLeaveModify(ledger, cat, cal, e, id, change).Success?
    ensures var after := ApplyLeaveModify(ledger, cat, cal, e, id, change).value;
            id in after.leaves && id in ledger.leaves &&
            var was, now := ledger.leaves[id], after.leaves[id];
            Sound(after, cat) <==>
            now.startDate.year == was.startDate.year ||
            (now.daysUsed == 0 && ChargedKey(cat, now) in ledger.balances)
  {
    var after := ApplyLeaveModify(ledger, cat, cal, e, id, change).value;
    var was, now := ledger.leaves[id], after.leaves[id];
    forall k | k in ledger.balances
      ensures after.balances[k].used - SumCharged(cat, after.leaves, k, after.nextLeave) ==
              (if ChargedKey(cat, was) == k then now.daysUsed else 0) - (if ChargedKey(cat, now) == k then now.daysUsed else 0)
    {
      ModifiedGap(ledger, cat, cal, e, id, change, k);
    }
    BooksFromGaps(ledger, after, cat, id, was, now);
  }

  lemma BooksFromGaps(ledger: Ledger, after: Ledger, cat: Catalogue, id: nat, was: Leave, now: Leave)
    requires Sound(ledger, cat) && after.balances.Keys == ledger.balances.Keys && after.nextLeave == ledger.nextLeave
    requires id in ledger.leaves && ledger.leaves[id] == was && after.leaves == ledger.leaves[id := now]
    requires now.employee == was.employee && now.leaveType == was.leaveType
    requires forall k :: k in ledger.balances ==>
      after.balances[k].used - SumCharged(cat, after.leaves, k, after.nextLeave) ==
      (if ChargedKey(cat, was) == k then now.daysUsed else 0) - (if ChargedKey(cat, now) == k then now.daysUsed else 0)
    ensures Sound(after, cat) <==>
            now.startDate.year == was.startDate.year || (now.daysUsed == 0 && ChargedKey(cat, now) in ledger.balances)
  {
    assert ChargedKey(cat, was) in after.balances;
    assert id in after.leaves && after.leaves[id] == now;
  }

  predicate StaysInYear(leave: Leave, change: Change) {
    change.startDate.Some? ==> change.startDate.value.year == leave.startDate.year
  }

  /** An hourly leave of at most two minutes rounds to no days; moved to a year in which the employee
      has the row, it charges nobody. */
  predicate VanishesIntoRow(ledger: Ledger, cat: Catalogue, leave: Leave, change: Change) {
    && change.startDate.Some?
    && FindType(cat, leave.leaveType).Some? && FindType(cat, leave.leaveType).value.timeOption.Hourly?
    && Minutes(change.startTime, change.endTime) <= 2
    && Key(leave.employee, ResolveBalanceType(cat, leave.leaveType), change.startDate.value.year) in ledger.balances
  }

  lemma NoDaysIff(cal: Calendar, t: LeaveType, p: Period)
    requires ComputeDaysUsed(cal, t, p).Success?
    ensures ComputeDaysUsed(cal, t, p).value == 0 <==> t.timeOption.Hourly? && Minutes(p.startTime, p.endTime) <= 2
  {
    if !t.timeOption.Hourly? {
      DaysArePositive(Max(1, BusinessDaysIn(cal, p.startDate, p.endDate)), UnitOf(t));
    }
  }

  /** A modification keeps the books iff it leaves the leave in its year, or makes it vanish into a row
      of the other year. */
  lemma ModifyKeepsSumIff(ledger: Ledger, cat: Catalogue, cal: Calendar, e: Id, id: nat, change: Change)
    requires Sound(ledger, cat) && ApplyLeaveModify(ledger, cat, cal, e, id, change).Success?
    ensures id in ledger.leaves
    ensures Sound(ApplyLeaveModify(ledger, cat, cal, e, id, change).value, cat) <==>
            StaysInYear(ledger.leaves[id], change) || VanishesIntoRow(ledger, cat, ledger.leaves[id], change)
  {
    var leave := ledger.leaves[id];
    var t := FindType(cat, leave.leaveType).value;
    ModifiedBooks(ledger, cat, cal, e, id, change);
    var start := if change.startDate.Some? then change.startDate.value else leave.startDate;
    var end := if t.timeOption.Hourly? then start
      else if change.endDate.Some? then change.endDate.value else leave.endDate;
    NoDaysIff(cal, t, Period(start, end, change.startTime, change.endTime));
  }

  lemma DeleteKeepsSum(ledger: Ledger, cat: Catalogue, e: Id, id: nat)
    requires Sound(ledger, cat) && ApplyLeaveDelete(ledger, cat, e, id).Success?
    ensures Sound(ApplyLeaveDelete(ledger, cat, e, id).value, cat)
  {
    var after := ApplyLeaveDelete(ledger, cat, e, id).value;
    var was := ledger.leaves[id];
    forall k | k in ledger.balances
      ensures SumCharged(cat, after.leaves, k, after.nextLeave) ==
              SumCharged(cat, ledger.leaves, k, ledger.nextLeave) -
              if ChargedKey(cat, was) == k then was.daysUsed else 0
    {
      SumChanges(cat, ledger.leaves, after.leaves, k, id, ledger.nextLeave);
    }
  }

  lemma {:induction false} NoChargeNoSum(cat: Catalogue, leaves: map<nat, Leave>, key: Key, n: nat)
    requires forall id :: id in leaves ==> ChargedKey(cat, leaves[id]) != key
    ensures SumCharged(cat, leaves, key, n) == 0
  {
    if n > 0 {
      NoChargeNoSum(cat, leaves, key, n - 1);
    }
  }

  /** Grants, accrual and the expiry job never touch used days. */
  lemma AccrualKeepsSum(ledger: Ledger, cat: Catalogue, cal: Calendar, op: LedgerOp)
    requires Sound(ledger, cat) && (op.Grant? || op.AccrualTarget? || op.ExpiryJob?)
    ensures Sound(Settle(ledger, cat, cal, op), cat)
  {
    var after := Settle(ledger, cat, cal, op);
    assert after.leaves == ledger.leaves && after.nextLeave == ledger.nextLeave;
    forall key | key in after.balances
      ensures after.balances[key].used == SumCharged(cat, after.leaves, key, after.nextLeave)
    {
      if key !in ledger.balances {
        NoChargeNoSum(cat, ledger.leaves, key, ledger.nextLeave);
      }
    }
  }

  /** The operations that keep the books: leaves are modified within their year and entered by
      administrators on representative types only. */
  predicate Tame(ledger: Ledger, cat: Catalogue, op: LedgerOp) {
    match op
    case LeaveModified(_, id, change) =>
      id in ledger.leaves ==> StaysInYear(ledger.leaves[id], change)
    case AdminLeave(_, t, _, _) => ResolveBalanceType(cat, t) == t
    case _ => true
  }

  predicate TameRun(ledger: Ledger, cat: Catalogue, cal: Calendar, ops: seq<LedgerOp>) {
    ops == [] ||
    (TameRun(ledger, cat, cal, ops[..|ops| - 1]) &&
     Tame(Run(ledger, cat, cal, ops[..|ops| - 1]), cat, ops[|ops| - 1]))
  }

  lemma TameKeepsSound(ledger: Ledger, cat: Catalogue, cal: Calendar, op: LedgerOp)
    requires Sound(ledger, cat) && Tame(ledger, cat, op)
    ensures Sound(Settle(ledger, cat, cal, op), cat)
  {
    match op
    case LeaveCreated(e, t, p) =>
      if ApplyLeaveCreate(ledger, cat, cal, e, t, p).Success? {
        ApprovedLeaveKeepsSum(ledger, cat, cal, e, t, p);
      }
    case LeaveModified(e, id, change) =>
      if ApplyLeaveModify(ledger, cat, cal, e, id, change).Success? {
        ModifyKeepsSumIff(ledger, cat, cal, e, id, change);
      }
    case LeaveDeleted(e, id) =>
      if ApplyLeaveDelete(ledger, cat, e, id).Success? {
        DeleteKeepsSum(ledger, cat, e, id);
      }
    case AdminLeave(e, t, s, end) =>
      if AdminCreateLeave(ledger, cat, cal, e, t, s, end).Success? {
        AdminLeaveKeepsSumIff(ledger, cat, cal, e, t, s, end);
      }
    case _ => AccrualKeepsSum(ledger, cat, cal, op);
  }

  /** Over every such run, from sound books, a row's used days are the sum of its live leaves. */
  lemma {:induction false} UsedIsSumOfLeaves(ledger: Ledger, cat: Catalogue, cal: Calendar, ops: seq<LedgerOp>)
    requires Sound(ledger, cat) && TameRun(ledger, cat, cal, ops)
    ensures Sound(Run(ledger, cat, cal, ops), cat)
    decreases |ops|
  {
    if ops != [] {
      var most := ops[..|ops| - 1];
      UsedIsSumOfLeaves(ledger, cat, cal, most);
      TameKeepsSound(Run(ledger, cat, cal, most), cat, cal, ops[|ops| - 1]);
    }
  }

  // ── Create, modify any number of times, delete ──

  function ModifyAll(ledger: Ledger, cat: Catalogue, cal: Calendar, e: Id, id: nat,
                     changes: seq<Change>): Result<Ledger, LeaveError> {
    if changes == [] then Success(ledger) else
    var before :- ModifyAll(ledger, cat, cal, e, id, changes[..|changes| - 1]);
    ApplyLeaveModify(before, cat, cal, e, id, changes[|changes| - 1])
  }

  predicate WithinYear(change: Change, year: int) {
    change.startDate.Some? ==> change.startDate.value.year == year
  }

  /** `after` is `ledger` with leave `id` changed within its year and its row charged the difference. */
  ghost predicate MovesOwnDays(ledger: Ledger, after: Ledger, cat: Catalogue, id: nat) {
    id in ledger.leaves && id in after.leaves &&
    var was, now, key := ledger.leaves[id], after.leaves[id], ChargedKey(cat, ledger.leaves[id]);
    && key in ledger.balances
    && after.leaves.Keys == ledger.leaves.Keys
    && now.employee == was.employee && now.startDate.year == was.startDate.year
    && ChargedKey(cat, now) == key
    && after.balances == ledger.balances[key := Charge(ledger.balances[key], now.daysUsed - was.daysUsed)]
  }

  lemma ModifyMovesOwnDays(ledger: Ledger, cat: Catalogue, cal: Calendar, e: Id, id: nat, change: Change)
    requires id in ledger.leaves && ChargedKey(cat, ledger.leaves[id]) in ledger.balances
    requires WithinYear(change, ledger.leaves[id].startDate.year)
    requires ApplyLeaveModify(ledger, cat, cal, e, id, change).Success?
    ensures MovesOwnDays(ledger, ApplyLeaveModify(ledger, cat, cal, e, id, change).value, cat, id)
  {
  }

  lemma MovesCompose(a: Ledger, b: Ledger, c: Ledger, cat: Catalogue, id: nat)
    requires MovesOwnDays(a, b, cat, id) && MovesOwnDays(b, c, cat, id)
    ensures MovesOwnDays(a, c, cat, id)
  {
  }

  lemma MovesNothing(ledger: Ledger, cat: Catalogue, id: nat)
    requires id in ledger.leaves && ChargedKey(cat, ledger.leaves[id]) in ledger.balances
    ensures MovesOwnDays(ledger, ledger, cat, id)
  {
    var key := ChargedKey(cat, ledger.leaves[id]);
    assert Charge(ledger.balances[key], 0) == ledger.balances[key];
  }

  /** Through any number of modifications within the year, the leave's row keeps used minus the days
      of the leave, and no other row changes. */
  lemma {:induction false} ModifyAllMovesOwnDays(ledger: Ledger, cat: Catalogue, cal: Calendar,
                                                 e: Id, id: nat, changes: seq<Change>)
    requires id in ledger.leaves && ChargedKey(cat, ledger.leaves[id]) in ledger.balances
    requires forall i :: 0 <= i < |changes| ==> WithinYear(changes[i], ledger.leaves[id].startDate.year)
    requires ModifyAll(ledger, cat, cal, e, id, changes).Success?
    ensures MovesOwnDays(ledger, ModifyAll(ledger, cat, cal, e, id, changes).value, cat, id)
    decreases |changes|
  {
    if changes == [] {
      MovesNothing(ledger, cat, id);
    } else {
      var most, last := changes[..|changes| - 1], changes[|changes| - 1];
      ModifyAllMovesOwnDays(ledger, cat, cal, e, id, most);
      var before := ModifyAll(ledger, cat, cal, e, id, most).value;
      ModifyMovesOwnDays(before, cat, cal, e, id, last);
      MovesCompose(ledger, before, ModifyAll(ledger, cat, cal, e, id, changes).value, cat, id);
    }
  }

  /** What an approved leave does to the ledger. */
  lemma CreatedLedger(ledger: Ledger, cat: Catalogue, cal: Calendar, e: Id, t: Id, p: Period) returns (leave: Leave)
    requires ApplyLeaveCreate(ledger, cat, cal, e, t, p).Success?
    ensures leave.employee == e && leave.startDate == p.startDate && ChargedKey(cat, leave) in ledger.balances
    ensures ApplyLeaveCreate(ledger, cat, cal, e, t, p).value == AddLeave(ledger, leave, ChargedKey(cat, leave))
  {
    leave := ApplyLeaveCreate(ledger, cat, cal, e, t, p).value.leaves[ledger.nextLeave];
  }

  /** Deleting the only charge made to a row restores the row. */
  lemma DeleteRestores(ledger: Ledger, cat: Catalogue, e: Id, id: nat, base: map<Key, Balance>)
    requires OwnLeave(ledger, e, id)
    requires var key := ChargedKey(cat, ledger.leaves[id]);
             key in base && ledger.balances == base[key := Charge(base[key], ledger.leaves[id].daysUsed)]
    ensures ApplyLeaveDelete(ledger, cat, e, id).Success?
    ensures ApplyLeaveDelete(ledger, cat, e, id).value.balances == base
  {
  }

  /** A leave that is created, modified within its year and deleted leaves every balance as it was. */
  lemma CreateModifyDeleteNetsToZero(ledger: Ledger, cat: Catalogue, cal: Calendar,
                                     e: Id, t: Id, p: Period, changes: seq<Change>, modified: Ledger)
    requires ApplyLeaveCreate(ledger, cat, cal, e, t, p).Success?
    requires forall i :: 0 <= i < |changes| ==> WithinYear(changes[i], p.startDate.year)
    requires ModifyAll(ApplyLeaveCreate(ledger, cat, cal, e, t, p).value, cat, cal, e, ledger.nextLeave, changes)
             == Success(modified)
    ensures var deleted := ApplyLeaveDelete(modified, cat, e, ledger.nextLeave);
            deleted.Success? && deleted.value.balances == ledger.balances
  {
    var leave := CreatedLedger(ledger, cat, cal, e, t, p);
    var created, key := AddLeave(ledger, leave, ChargedKey(cat, leave)), ChargedKey(cat, leave);
    ModifyAllMovesOwnDays(created, cat, cal, e, ledger.nextLeave, changes);
    ChargesAddUp(ledger, created, modified, cat, leave, key);
    DeleteRestores(modified, cat, e, ledger.nextLeave, ledger.balances);
  }

  lemma ChargesAddUp(ledger: Ledger, created: Ledger, modified: Ledger, cat: Catalogue, leave: Leave, key: Key)
    requires key == ChargedKey(cat, leave) && key in ledger.balances
    requires created == AddLeave(ledger, leave, key) && MovesOwnDays(created, modified, cat, ledger.nextLeave)
    ensures modified.balances == ledger.balances[key := Charge(ledger.balances[key], modified.leaves[ledger.nextLeave].daysUsed)]
  {
  }

  /** Moving a one-day leave to the next year charges nobody for it: the old row keeps the day and
      the new year's row does not get it. */
  lemma MoveAcrossNewYear(cal: Calendar)
    ensures var cat := [LeaveType(1, 1, 100, FullDay, None, true)];
            var old2025, new2026 := Key(7, 1, 2025), Key(7, 1, 2026);
            var ledger := Ledger(map[old2025 := Balance(1500, 100, 1400, None), new2026 := Balance(1500, 0, 1500, None)],
                                 map[0 := Leave(7, 1, Date(2025, 12, 29), Date(2025, 12, 29), 100)], 1);
            var change := Change(Some(Date(2026, 1, 5)), Some(Date(2026, 1, 5)), None, None);
            var r := ApplyLeaveModify(ledger, cat, cal, 7, 0, change);
            Sound(ledger, cat) && r.Success? && !Sound(r.value, cat) &&
            r.value.balances[old2025].used == 100 && r.value.balances[new2026].used == 0
  {
    var cat := [LeaveType(1, 1, 100, FullDay, None, true)];
    var old2025, new2026 := Key(7, 1, 2025), Key(7, 1, 2026);
    var leave := Leave(7, 1, Date(2025, 12, 29), Date(2025, 12, 29), 100);
    var ledger := Ledger(map[old2025 := Balance(1500, 100, 1400, None), new2026 := Balance(1500, 0, 1500, None)],
                         map[0 := leave], 1);
    assert OfGroup(cat, 1) == cat && ActiveTypes(cat) == cat;
    assert ResolveBalanceType(cat, 1) == 1;
    assert ChargedKey(cat, leave) == old2025;
    assert SumCharged(cat, ledger.leaves, old2025, 1) == SumCharged(cat, ledger.leaves, old2025, 0) + 100;
    assert SumCharged(cat, ledger.leaves, new2026, 1) == SumCharged(cat, ledger.leaves, new2026, 0);
    assert Sound(ledger, cat);
    var change := Change(Some(Date(2026, 1, 5)), Some(Date(2026, 1, 5)), None, None);
    B.OneDay(cal.dayOf(Date(2026, 1, 5)), cal.holidays);
    ModifyKeepsSumIff(ledger, cat, cal, 7, 0, change);
  }

  // ── Accrued = used + remaining + expired ──

  /** The days of a row that were forfeited. */
  function Forfeited(b: Balance): int {
    b.accrued - b.used - b.remaining
  }

  /** The days of `key` that the operation forfeits. */
  function ForfeitedBy(ledger: Ledger, op: LedgerOp, key: Key): nat {
    if op.ExpiryJob? && key in ledger.balances && Overdue(ledger.balances[key], op.today)
    then ledger.balances[key].remaining else 0
  }

  function ForfeitedOver(ledger: Ledger, cat: Catalogue, cal: Calendar, ops: seq<LedgerOp>, key: Key): nat {
    if ops == [] then 0
    else ForfeitedOver(ledger, cat, cal, ops[..|ops| - 1], key) +
         ForfeitedBy(Run(ledger, cat, cal, ops[..|ops| - 1]), ops[|ops| - 1], key)
  }

  function ForfeitedOf(ledger: Ledger, key: Key): int {
    if key in ledger.balances then Forfeited(ledger.balances[key]) else 0
  }

  /** Only the expiry job creates forfeited days, and then exactly what was left. */
  lemma OpConserves(ledger: Ledger, cat: Catalogue, cal: Calendar, op: LedgerOp, key: Key)
    ensures ForfeitedOf(Settle(ledger, cat, cal, op), key) ==
            ForfeitedOf(ledger, key) + ForfeitedBy(ledger, op, key)
  {
  }

  /** On every row and over every run, accrued = used + remaining + what the expiry jobs forfeited. */
  lemma {:induction false} LedgerConserves(cat: Catalogue, cal: Calendar, ops: seq<LedgerOp>, key: Key)
    requires key in Run(EMPTY_LEDGER, cat, cal, ops).balances
    ensures var b := Run(EMPTY_LEDGER, cat, cal, ops).balances[key];
            b.accrued == b.used + b.remaining + ForfeitedOver(EMPTY_LEDGER, cat, cal, ops, key)
  {
    RunConserves(EMPTY_LEDGER, cat, cal, ops, key);
  }

  lemma {:induction false} RunConserves(ledger: Ledger, cat: Catalogue, cal: Calendar, ops: seq<LedgerOp>, key: Key)
    ensures ForfeitedOf(Run(ledger, cat, cal, ops), key) ==
            ForfeitedOf(ledger, key) + ForfeitedOver(ledger, cat, cal, ops, key)
    decreases |ops|
  {
    if ops != [] {
      RunConserves(ledger, cat, cal, ops[..|ops| - 1], key);
      OpConserves(Run(ledger, cat, cal, ops[..|ops| - 1]), cat, cal, ops[|ops| - 1], key);
    }
  }

  // ── Grants ──

  datatype Granted = Granted(days: int, expiresAt: Option<Date>)

  function GrantAll(ledger: Ledger, key: Key, grants: seq<Granted>): Ledger {
    if grants == [] then ledger
    else
      var last := grants[|grants| - 1];
      UpsertAccrued(GrantAll(ledger, key, grants[..|grants| - 1]), key, last.days, last.expiresAt)
  }

  function TotalDays(grants: seq<Granted>): int {
    if grants == [] then 0 else TotalDays(grants[..|grants| - 1]) + grants[|grants| - 1].days
  }

  /** The row's values, those of an empty row when it is missing. */
  function RowOf(ledger: Ledger, key: Key): Balance {
    if key in ledger.balances then ledger.balances[key] else Balance(0, 0, 0, None)
  }

  /** Grants add up: accrued and remaining grow by all days granted, used and every other row stay. */
  lemma {:induction false} GrantsAddUp(ledger: Ledger, key: Key, grants: seq<Granted>, other: Key)
    ensures var was, now := RowOf(ledger, key), RowOf(GrantAll(ledger, key, grants), key);
            && now.accrued == was.accrued + TotalDays(grants)
            && now.remaining == was.remaining + TotalDays(grants)
            && now.used == was.used
    ensures other != key ==>
              (other in GrantAll(ledger, key, grants).balances <==> other in ledger.balances) &&
              RowOf(GrantAll(ledger, key, grants), other) == RowOf(ledger, other)
    decreases |grants|
  {
    if grants != [] { GrantsAddUp(ledger, key, grants[..|grants| - 1], other); }
  }

  // ── A leave on a type that is not the representative ──

  /** A half-day leave that an administrator enters on days granted by hand to the half-day type: it
      is charged to that row, though the books keep the group's leaves on the full-day type's. */
  lemma AdminLeaveOnHalfDays(cal: Calendar)
    ensures var cat := [LeaveType(1, 1, 100, FullDay, None, true), LeaveType(2, 1, 50, HalfDay, None, true)];
            var half := Key(7, 2, 2026);
            var ledger := UpsertAccrued(EMPTY_LEDGER, half, 300, None);
            var r := AdminCreateLeave(ledger, cat, cal, 7, 2, Date(2026, 3, 2), Date(2026, 3, 2));
            Sound(ledger, cat) && r.Success? && r.value.balances[half].used == 50 && !Sound(r.value, cat)
  {
    var full, halfDay := LeaveType(1, 1, 100, FullDay, None, true), LeaveType(2, 1, 50, HalfDay, None, true);
    var cat := [full, halfDay];
    var half := Key(7, 2, 2026);
    var ledger := UpsertAccrued(EMPTY_LEDGER, half, 300, None);
    HalfDaysResolve(full, halfDay);
    assert SumCharged(cat, ledger.leaves, half, 0) == 0;
    AdminLeaveKeepsSumIff(ledger, cat, cal, 7, 2, Date(2026, 3, 2), Date(2026, 3, 2));
  }

  lemma HalfDaysResolve(full: LeaveType, half: LeaveType)
    requires full.id != half.id && full.group == half.group && full.isActive && half.isActive
    requires IsRepresentative(full) && !IsRepresentative(half)
    ensures ResolveBalanceType([full, half], half.id) == full.id && FindType([full, half], half.id) == Some(half)
  {
    var cat := [full, half];
    assert cat[1..] == [half] && [half][1..] == [];
    assert OfGroup([half], full.group) == [half];
    assert OfGroup(cat, full.group) == [full] + [half];
    assert [full] + [half] == cat;
    assert ActiveTypes([half]) == [half];
    assert ActiveTypes(cat) == [full] + [half];
  }
}
