/** The accrual engine: how many days a rule grants an employee, and what running it does. */
module LeaveAccrual {
  import opened Wrappers
  import opened LeaveLedger

  datatype Basis = Monthly | Yearly

  datatype RuleItem = RuleItem(basis: Basis, tenureMonths: Option<nat>, tenureYears: Option<nat>,
                               accrualDays: nat)

  /** An active employee; full months of service at the reference date. */
  datatype Employee = Employee(id: Id, joinedAt: Date, tenureMonths: nat)

  /** Expiry date of what an item grants, from the joining date and the year. */
  type ExpiryOf = (RuleItem, Date, int) -> Option<Date>

  predicate ValidDate(d: Date) {
    1 <= d.month <= 12 && 1 <= d.day <= 31
  }

  predicate NotAfter(a: Date, b: Date) {
    a == b || a.Before(b)
  }

  /** The months of service an item asks for. */
  function Threshold(item: RuleItem): nat {
    match item.basis
    case Yearly => 12 * (if item.tenureYears.Some? then item.tenureYears.value else 0)
    case Monthly => if item.tenureMonths.Some? then item.tenureMonths.value else 0
  }

  /** The highest tier the service reaches; of equal tiers the first. */
  function HighestTier(items: seq<RuleItem>, tenure: nat): (r: Option<RuleItem>)
    ensures r.None? <==> forall item :: item in items ==> tenure < Threshold(item)
    ensures r.Some? ==> r.value in items && Threshold(r.value) <= tenure
    ensures r.Some? ==> forall item :: item in items && Threshold(item) <= tenure ==>
      Threshold(item) <= Threshold(r.value)
  {
    if items == [] then None else
    var n := |items| - 1;
    assert items == items[..n] + [items[n]];
    var before := HighestTier(items[..n], tenure);
    if tenure < Threshold(items[n]) then before
    else if before.Some? && Threshold(before.value) >= Threshold(items[n]) then before
    else Some(items[n])
  }

  /** The reference date, moved into the year: its last day for past years, its first for future. */
  function ClampToYear(date: Date, year: int): Date {
    if date.Before(Date(year, 1, 1)) then Date(year, 1, 1)
    else if Date(year, 12, 31).Before(date) then Date(year, 12, 31)
    else date
  }

  /** Full months between two dates. */
  function FullMonths(start: Date, end: Date): int {
    (end.year - start.year) * 12 + (end.month - start.month) - if end.day < start.day then 1 else 0
  }

  /** How many monthly grants have fallen due in the year. */
  function MonthlyCount(joinedAt: Date, year: int, reference: Date): nat {
    var start := if Date(year, 1, 1).Before(joinedAt) then joinedAt else Date(year, 1, 1);
    if reference.Before(start) then 0
    else
      var months := FullMonths(start, reference);
      if months < 0 then 0 else if months > 12 then 12 else months
  }

  datatype Accrual = Accrual(targetDays: int, expiresAt: Option<Date>)

  function AccrualFor(items: seq<RuleItem>, e: Employee, year: int, reference: Date,
                      expiry: ExpiryOf): Option<Accrual> {
    match HighestTier(items, e.tenureMonths)
    case None => None
    case Some(item) =>
      var expiresAt := expiry(item, e.joinedAt, year);
      match item.basis
      case Yearly => Some(Accrual(item.accrualDays, expiresAt))
      case Monthly =>
        var months := MonthlyCount(e.joinedAt, year, reference);
        if months == 0 then None else Some(Accrual(item.accrualDays * months, expiresAt))
  }

  /** One run of a rule: the ledger after it, and how many employees it changed. */
  function RunRule(ledger: Ledger, leaveType: Id, items: seq<RuleItem>, employees: seq<Employee>,
                   year: int, reference: Date, expiry: ExpiryOf): (Ledger, nat) {
    if employees == [] then (ledger, 0) else
    var n := |employees| - 1;
    var (before, processed) := RunRule(ledger, leaveType, items, employees[..n], year, reference, expiry);
    match AccrualFor(items, employees[n], year, reference, expiry)
    case None => (before, processed)
    case Some(a) =>
      var (after, applied) :=
        ApplyAccrualTarget(before, Key(employees[n].id, leaveType, year), a.targetDays, a.expiresAt);
      (after, processed + if applied then 1 else 0)
  }

  /** The ledger operation a rule performs for an employee, if it grants them days. */
  function OpsFor(leaveType: Id, items: seq<RuleItem>, e: Employee, year: int, reference: Date,
                  expiry: ExpiryOf): seq<LedgerOp> {
    match AccrualFor(items, e, year, reference, expiry)
    case None => []
    case Some(a) => [AccrualTarget(Key(e.id, leaveType, year), a.targetDays, a.expiresAt)]
  }

  /** The ledger operations a run of a rule consists of: one target per employee it grants days to. */
  function RuleOps(leaveType: Id, items: seq<RuleItem>, employees: seq<Employee>,
                   year: int, reference: Date, expiry: ExpiryOf): seq<LedgerOp> {
    if employees == [] then [] else
    var n := |employees| - 1;
    RuleOps(leaveType, items, employees[..n], year, reference, expiry) +
      OpsFor(leaveType, items, employees[n], year, reference, expiry)
  }

  /** What at most one operation more makes of a run. */
  function SettleFew(ledger: Ledger, cat: Catalogue, cal: Calendar, ops: seq<LedgerOp>): Ledger
    requires |ops| <= 1
  {
    if ops == [] then ledger else Settle(ledger, cat, cal, ops[0])
  }

  lemma RunFewMore(ledger: Ledger, cat: Catalogue, cal: Calendar, ops: seq<LedgerOp>, few: seq<LedgerOp>)
    requires |few| <= 1
    ensures Run(ledger, cat, cal, ops + few) == SettleFew(Run(ledger, cat, cal, ops), cat, cal, few)
  {
    if few == [] {
      assert ops + few == ops;
    } else {
      assert (ops + few)[..|ops + few| - 1] == ops;
    }
  }

  lemma RuleForLast(ledger: Ledger, cat: Catalogue, cal: Calendar, leaveType: Id, items: seq<RuleItem>,
                    employees: seq<Employee>, year: int, reference: Date, expiry: ExpiryOf)
    requires employees != []
    ensures var n := |employees| - 1;
            RunRule(ledger, leaveType, items, employees, year, reference, expiry).0 ==
            SettleFew(RunRule(ledger, leaveType, items, employees[..n], year, reference, expiry).0, cat, cal,
                      OpsFor(leaveType, items, employees[n], year, reference, expiry))
  {
  }

  lemma {:induction false} TargetsExtendRun(ledger: Ledger, cat: Catalogue, cal: Calendar, ops: seq<LedgerOp>,
                                            leaveType: Id, items: seq<RuleItem>, employees: seq<Employee>,
                                            year: int, reference: Date, expiry: ExpiryOf)
    ensures RunRule(Run(ledger, cat, cal, ops), leaveType, items, employees, year, reference, expiry).0 ==
            Run(ledger, cat, cal, ops + RuleOps(leaveType, items, employees, year, reference, expiry))
    decreases |employees|
  {
    if employees == [] {
      assert ops + [] == ops;
    } else {
      var n := |employees| - 1;
      TargetsExtendRun(ledger, cat, cal, ops, leaveType, items, employees[..n], year, reference, expiry);
      RuleForLast(Run(ledger, cat, cal, ops), cat, cal, leaveType, items, employees, year, reference, expiry);
      var most := RuleOps(leaveType, items, employees[..n], year, reference, expiry);
      var few := OpsFor(leaveType, items, employees[n], year, reference, expiry);
      RunFewMore(ledger, cat, cal, ops + most, few);
      assert ops + (most + few) == (ops + most) + few;
    }
  }

  // ── The type a rule credits ──

  /** The active types of a group, as the rule loads them. */
  function ActiveTypesOf(cat: Catalogue, group: Id): Catalogue {
    if cat == [] then []
    else if cat[0].group == group && cat[0].isActive then [cat[0]] + ActiveTypesOf(cat[1..], group)
    else ActiveTypesOf(cat[1..], group)
  }

  /** Place of the first full-day type that deducts one day, or the length. */
  function FullDayPlace(types: Catalogue): (i: nat)
    ensures i <= |types|
    ensures forall j :: 0 <= j < i ==> types[j].deduction != DAY || !types[j].timeOption.FullDay?
    ensures i < |types| ==> types[i].deduction == DAY && types[i].timeOption.FullDay?
  {
    if types == [] || (types[0].deduction == DAY && types[0].timeOption.FullDay?) then 0
    else 1 + FullDayPlace(types[1..])
  }

  function PickRepresentativeLeaveType(types: Catalogue): Option<LeaveType> {
    if types == [] then None
    else
      var i := FullDayPlace(types);
      Some(if i < |types| then types[i] else types[0])
  }

  /** One run of a group's rule: nothing is granted when the group has no active type. */
  function RunGroupRule(ledger: Ledger, cat: Catalogue, group: Id, items: seq<RuleItem>, employees: seq<Employee>,
                        year: int, reference: Date, expiry: ExpiryOf): (Ledger, nat) {
    match PickRepresentativeLeaveType(ActiveTypesOf(cat, group))
    case None => (ledger, 0)
    case Some(t) => RunRule(ledger, t.id, items, employees, year, reference, expiry)
  }

  function GroupRuleOps(cat: Catalogue, group: Id, items: seq<RuleItem>, employees: seq<Employee>,
                        year: int, reference: Date, expiry: ExpiryOf): seq<LedgerOp> {
    match PickRepresentativeLeaveType(ActiveTypesOf(cat, group))
    case None => []
    case Some(t) => RuleOps(t.id, items, employees, year, reference, expiry)
  }

  /** A rule run after any operations is those operations and its targets: what holds over every run of
      the ledger holds through rule runs. */
  lemma RuleExtendsRun(ledger: Ledger, cat: Catalogue, cal: Calendar, ops: seq<LedgerOp>, group: Id,
                       items: seq<RuleItem>, employees: seq<Employee>, year: int, reference: Date, expiry: ExpiryOf)
    ensures RunGroupRule(Run(ledger, cat, cal, ops), cat, group, items, employees, year, reference, expiry).0 ==
            Run(ledger, cat, cal, ops + GroupRuleOps(cat, group, items, employees, year, reference, expiry))
  {
    match PickRepresentativeLeaveType(ActiveTypesOf(cat, group))
    case None => assert ops + [] == ops;
    case Some(t) => TargetsExtendRun(ledger, cat, cal, ops, t.id, items, employees, year, reference, expiry);
  }

  // ── Laws ──

  /** Monthly grants never exceed eleven for a reference date within the year. */
  lemma MonthlyCountInYear(joinedAt: Date, year: int, today: Date)
    requires ValidDate(joinedAt) && ValidDate(today)
    ensures MonthlyCount(joinedAt, year, ClampToYear(today, year)) <= 11
  {
    var start := if Date(year, 1, 1).Before(joinedAt) then joinedAt else Date(year, 1, 1);
    var reference := ClampToYear(today, year);
    assert reference.year == year && ValidDate(reference);
    assert !reference.Before(start) ==> start.year == year;
  }

  /** As the days pass the number of monthly grants never falls. */
  lemma MonthlyCountMonotone(joinedAt: Date, year: int, today: Date, later: Date)
    requires ValidDate(joinedAt) && ValidDate(today) && ValidDate(later) && NotAfter(today, later)
    ensures MonthlyCount(joinedAt, year, today) <= MonthlyCount(joinedAt, year, later)
  {
    var start := if Date(year, 1, 1).Before(joinedAt) then joinedAt else Date(year, 1, 1);
    assert FullMonths(start, today) <= FullMonths(start, later);
  }

  function MaxTarget(start: int, targets: seq<Accrual>): int {
    if targets == [] then start
    else Max(MaxTarget(start, targets[..|targets| - 1]), targets[|targets| - 1].targetDays)
  }

  /** The maximum does not depend on the order or repetition of the targets. */
  lemma {:induction false} MaxTargetIsMaximum(start: int, targets: seq<Accrual>)
    ensures MaxTarget(start, targets) >= start
    ensures forall i :: 0 <= i < |targets| ==> targets[i].targetDays <= MaxTarget(start, targets)
    ensures MaxTarget(start, targets) == start ||
            exists i :: 0 <= i < |targets| && targets[i].targetDays == MaxTarget(start, targets)
  {
    if targets != [] {
      var n := |targets| - 1;
      MaxTargetIsMaximum(start, targets[..n]);
      if MaxTarget(start, targets[..n]) != start && MaxTarget(start, targets) != targets[n].targetDays {
        var i :| 0 <= i < n && targets[..n][i].targetDays == MaxTarget(start, targets[..n]);
        assert targets[i].targetDays == MaxTarget(start, targets);
      }
    }
  }

  lemma {:induction false} MaxConcat(start: int, a: seq<Accrual>, b: seq<Accrual>)
    ensures MaxTarget(start, a + b) == MaxTarget(MaxTarget(start, a), b)
    decreases |b|
  {
    if b == [] {
      assert a + b == a;
    } else {
      MaxConcat(start, a, b[..|b| - 1]);
      assert (a + b)[..|a + b| - 1] == a + b[..|b| - 1];
    }
  }

  // ── Any sequence of rule runs ──

  /** One run of a rule: the type it credits, its items, the employees at hand, the year and the
      reference date. */
  datatype RuleRun = RuleRun(leaveType: Id, items: seq<RuleItem>, employees: seq<Employee>, year: int, reference: Date)

  function RunRules(ledger: Ledger, runs: seq<RuleRun>, expiry: ExpiryOf): Ledger {
    if runs == [] then ledger
    else
      var last := runs[|runs| - 1];
      RunRule(RunRules(ledger, runs[..|runs| - 1], expiry), last.leaveType, last.items, last.employees,
              last.year, last.reference, expiry).0
  }

  /** What a run grants an employee on the row `key`. */
  function TargetOn(leaveType: Id, items: seq<RuleItem>, e: Employee, year: int, reference: Date,
                    expiry: ExpiryOf, key: Key): seq<Accrual> {
    var accrual := AccrualFor(items, e, year, reference, expiry);
    if accrual.Some? && Key(e.id, leaveType, year) == key then [accrual.value] else []
  }

  /** What a run grants on the row `key`. */
  function TargetsOfRun(leaveType: Id, items: seq<RuleItem>, employees: seq<Employee>, year: int, reference: Date,
                        expiry: ExpiryOf, key: Key): seq<Accrual> {
    if employees == [] then []
    else
      var n := |employees| - 1;
      TargetsOfRun(leaveType, items, employees[..n], year, reference, expiry, key) +
        TargetOn(leaveType, items, employees[n], year, reference, expiry, key)
  }

  function TargetsOf(runs: seq<RuleRun>, expiry: ExpiryOf, key: Key): seq<Accrual> {
    if runs == [] then []
    else
      var r := runs[|runs| - 1];
      TargetsOf(runs[..|runs| - 1], expiry, key) +
        TargetsOfRun(r.leaveType, r.items, r.employees, r.year, r.reference, expiry, key)
  }

  /** The row `key` after these targets: accrued is the maximum of what it was and all of them,
      remaining grew by as much and used stayed; a row that was missing exists iff there was a target,
      and nothing of it is used. Without targets it is untouched. */
  ghost predicate Raised(before: Ledger, after: Ledger, key: Key, targets: seq<Accrual>) {
    && after.leaves == before.leaves && after.nextLeave == before.nextLeave
    && (key in before.balances ==>
         && key in after.balances
         && after.balances[key].accrued == MaxTarget(before.balances[key].accrued, targets)
         && after.balances[key].remaining - before.balances[key].remaining ==
            after.balances[key].accrued - before.balances[key].accrued
         && after.balances[key].used == before.balances[key].used)
    && (key !in before.balances ==>
         && (key in after.balances <==> targets != [])
         && (targets != [] ==>
              && after.balances[key].accrued == MaxTarget(targets[0].targetDays, targets)
              && after.balances[key].remaining == after.balances[key].accrued
              && after.balances[key].used == 0))
    && (targets == [] && key in before.balances ==> after.balances[key] == before.balances[key])
  }

  lemma OneTarget(ledger: Ledger, key: Key, a: Accrual)
    ensures Raised(ledger, ApplyAccrualTarget(ledger, key, a.targetDays, a.expiresAt).0, key, [a])
  {
    assert [a][..0] == [];
    if key in ledger.balances {
      assert MaxTarget(ledger.balances[key].accrued, [a]) == Max(ledger.balances[key].accrued, a.targetDays);
    } else {
      assert MaxTarget(a.targetDays, [a]) == a.targetDays;
    }
  }

  lemma OtherTarget(ledger: Ledger, other: Key, a: Accrual, key: Key)
    requires other != key
    ensures Raised(ledger, ApplyAccrualTarget(ledger, other, a.targetDays, a.expiresAt).0, key, [])
  {
  }

  /** Raising twice is raising once by all the targets. */
  lemma RaisedTwice(a: Ledger, b: Ledger, c: Ledger, key: Key, first: seq<Accrual>, second: seq<Accrual>)
    requires Raised(a, b, key, first) && Raised(b, c, key, second)
    ensures Raised(a, c, key, first + second)
  {
    if key in a.balances {
      MaxConcat(a.balances[key].accrued, first, second);
    } else if first != [] {
      MaxConcat(first[0].targetDays, first, second);
    } else {
      assert first + second == second;
    }
    if second == [] { assert first + second == first; }
  }

  lemma {:induction false} RunCollapses(ledger: Ledger, leaveType: Id, items: seq<RuleItem>, employees: seq<Employee>,
                                        year: int, reference: Date, expiry: ExpiryOf, key: Key)
    ensures Raised(ledger, RunRule(ledger, leaveType, items, employees, year, reference, expiry).0, key,
                   TargetsOfRun(leaveType, items, employees, year, reference, expiry, key))
    decreases |employees|
  {
    if employees != [] {
      var n := |employees| - 1;
      RunCollapses(ledger, leaveType, items, employees[..n], year, reference, expiry, key);
      var before := RunRule(ledger, leaveType, items, employees[..n], year, reference, expiry).0;
      var after := RunRule(ledger, leaveType, items, employees, year, reference, expiry).0;
      LastEmployee(before, leaveType, items, employees[n], year, reference, expiry, key, after);
      RaisedTwice(ledger, before, after, key, TargetsOfRun(leaveType, items, employees[..n], year, reference, expiry, key),
                  TargetOn(leaveType, items, employees[n], year, reference, expiry, key));
    }
  }

  lemma LastEmployee(before: Ledger, leaveType: Id, items: seq<RuleItem>, e: Employee, year: int, reference: Date,
                     expiry: ExpiryOf, key: Key, after: Ledger)
    requires var accrual := AccrualFor(items, e, year, reference, expiry);
             after == if accrual.None? then before
                      else ApplyAccrualTarget(before, Key(e.id, leaveType, year), accrual.value.targetDays, accrual.value.expiresAt).0
    ensures Raised(before, after, key, TargetOn(leaveType, items, e, year, reference, expiry, key))
  {
    var accrual, own := AccrualFor(items, e, year, reference, expiry), Key(e.id, leaveType, year);
    if accrual.Some? {
      if own == key { OneTarget(before, key, accrual.value); } else { OtherTarget(before, own, accrual.value, key); }
    }
  }

  /** Any sequence of rule runs amounts to one, on every row: accrued ends at the maximum of its start
      and all targets of that row's employee in these runs, remaining grows by the same, used stays, and
      rows nothing was granted on are untouched. */
  lemma {:induction false} AccrualCollapses(ledger: Ledger, runs: seq<RuleRun>, expiry: ExpiryOf, key: Key)
    ensures Raised(ledger, RunRules(ledger, runs, expiry), key, TargetsOf(runs, expiry, key))
    decreases |runs|
  {
    if runs != [] {
      var most, r := runs[..|runs| - 1], runs[|runs| - 1];
      AccrualCollapses(ledger, most, expiry, key);
      var before := RunRules(ledger, most, expiry);
      RunCollapses(before, r.leaveType, r.items, r.employees, r.year, r.reference, expiry, key);
      RaisedTwice(ledger, before, RunRules(ledger, runs, expiry), key, TargetsOf(most, expiry, key),
                  TargetsOfRun(r.leaveType, r.items, r.employees, r.year, r.reference, expiry, key));
    }
  }

  ghost predicate HasAccrued(ledger: Ledger, key: Key, accrual: Option<Accrual>) {
    accrual.None? ||
    (key in ledger.balances && ledger.balances[key].accrued >= accrual.value.targetDays)
  }

  /** Every employee the rule grants something to has at least that much. */
  ghost predicate Reached(ledger: Ledger, leaveType: Id, items: seq<RuleItem>, employees: seq<Employee>,
                          year: int, reference: Date, expiry: ExpiryOf) {
    forall i :: 0 <= i < |employees| ==>
      HasAccrued(ledger, Key(employees[i].id, leaveType, year),
                 AccrualFor(items, employees[i], year, reference, expiry))
  }

  /** Applying a target reaches it and takes nothing from anyone. */
  lemma TargetReaches(ledger: Ledger, key: Key, a: Accrual, other: Key, reached: Option<Accrual>)
    requires HasAccrued(ledger, other, reached)
    ensures var after := ApplyAccrualTarget(ledger, key, a.targetDays, a.expiresAt).0;
            HasAccrued(after, key, Some(a)) && HasAccrued(after, other, reached)
  {
  }

  lemma {:induction false} RunReaches(ledger: Ledger, leaveType: Id, items: seq<RuleItem>,
                                      employees: seq<Employee>, year: int, reference: Date, expiry: ExpiryOf)
    ensures Reached(RunRule(ledger, leaveType, items, employees, year, reference, expiry).0,
                    leaveType, items, employees, year, reference, expiry)
    decreases |employees|
  {
    if employees != [] {
      var n := |employees| - 1;
      RunReaches(ledger, leaveType, items, employees[..n], year, reference, expiry);
      var before := RunRule(ledger, leaveType, items, employees[..n], year, reference, expiry).0;
      var accrual := AccrualFor(items, employees[n], year, reference, expiry);
      var key := Key(employees[n].id, leaveType, year);
      if accrual.Some? {
        NextReaches(before, leaveType, items, employees, year, reference, expiry, key, accrual.value);
      }
    }
  }

  /** Once the others have reached their targets, so has everyone after the last one's. */
  lemma NextReaches(before: Ledger, leaveType: Id, items: seq<RuleItem>, employees: seq<Employee>,
                    year: int, reference: Date, expiry: ExpiryOf, key: Key, a: Accrual)
    requires employees != []
    requires Reached(before, leaveType, items, employees[..|employees| - 1], year, reference, expiry)
    requires key == Key(employees[|employees| - 1].id, leaveType, year)
    requires AccrualFor(items, employees[|employees| - 1], year, reference, expiry) == Some(a)
    ensures Reached(ApplyAccrualTarget(before, key, a.targetDays, a.expiresAt).0,
                    leaveType, items, employees, year, reference, expiry)
  {
    var n := |employees| - 1;
    TargetReaches(before, key, a, key, None);
    forall i | 0 <= i < n
      ensures HasAccrued(ApplyAccrualTarget(before, key, a.targetDays, a.expiresAt).0,
                         Key(employees[i].id, leaveType, year),
                         AccrualFor(items, employees[i], year, reference, expiry))
    {
      assert employees[..n][i] == employees[i];
      TargetReaches(before, key, a, Key(employees[i].id, leaveType, year),
                    AccrualFor(items, employees[i], year, reference, expiry));
    }
  }

  lemma {:induction false} ReachedRunIsIdle(ledger: Ledger, leaveType: Id, items: seq<RuleItem>,
                                            employees: seq<Employee>, year: int, reference: Date,
                                            expiry: ExpiryOf)
    requires Reached(ledger, leaveType, items, employees, year, reference, expiry)
    ensures RunRule(ledger, leaveType, items, employees, year, reference, expiry) == (ledger, 0)
    decreases |employees|
  {
    if employees != [] {
      var n := |employees| - 1;
      forall i | 0 <= i < n ensures employees[..n][i] == employees[i] {
      }
      ReachedRunIsIdle(ledger, leaveType, items, employees[..n], year, reference, expiry);
    }
  }

  /** Running a rule again on the same day changes nothing and reports nobody. */
  lemma RerunProcessesNobody(ledger: Ledger, leaveType: Id, items: seq<RuleItem>, employees: seq<Employee>,
                             year: int, reference: Date, expiry: ExpiryOf)
    ensures var once := RunRule(ledger, leaveType, items, employees, year, reference, expiry).0;
            RunRule(once, leaveType, items, employees, year, reference, expiry) == (once, 0)
  {
    RunReaches(ledger, leaveType, items, employees, year, reference, expiry);
    ReachedRunIsIdle(RunRule(ledger, leaveType, items, employees, year, reference, expiry).0,
                     leaveType, items, employees, year, reference, expiry);
  }
}
