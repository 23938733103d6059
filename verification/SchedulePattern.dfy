/**
 * Expanding a repeating schedule pattern into shifts. Dates are day numbers and instants are minutes,
 * both in UTC.
 */
module SchedulePattern {
  import opened Wrappers

  type Id = nat
  type Day = int

  const MINUTES := 1440

  datatype HolidayHandling = SkipAndShift | SkipAndKeep | NoSkip

  /** A template; its times are minutes of the day. */
  datatype Template = Template(id: Id, shiftTypeId: Id, startTime: nat, endTime: nat)

  datatype Employee = Employee(id: Id, primaryOrg: Option<Id>)

  datatype Shift = Shift(employeeId: Id, organizationId: Id, shiftTypeId: Id, templateId: Id, startAt: int, endAt: int)

  /** What an application works on: the dates, the pattern, the holidays loaded for these dates and
      the active templates. */
  datatype Plan = Plan(start: Day, end: Day, cycleDays: nat, slots: map<nat, Id>, handling: HolidayHandling,
                       holidays: set<Day>, templates: map<Id, Template>)

  predicate ValidPlan(p: Plan) {
    && p.cycleDays >= 1
    && (forall h :: h in p.holidays ==> p.start <= h <= p.end)
    && (forall t :: t in p.templates ==>
          p.templates[t].id == t && p.templates[t].startTime < MINUTES && p.templates[t].endTime < MINUTES)
  }

  // ── The next working day ──

  function Following(holidays: set<Day>, day: Day): set<Day> {
    set h | h in holidays && h > day
  }

  /** The first later day outside the holidays. */
  function NextNonHoliday(day: Day, holidays: set<Day>): (r: Day)
    ensures r > day && r !in holidays
    ensures forall d :: day < d < r ==> d in holidays
    decreases |Following(holidays, day)|
  {
    if day + 1 !in holidays then day + 1
    else
      assert Following(holidays, day) == Following(holidays, day + 1) + {day + 1};
      NextNonHoliday(day + 1, holidays)
  }

  method FindNextNonHoliday(day: Day, holidays: set<Day>) returns (next: Day)
    ensures next == NextNonHoliday(day, holidays)
  {
    next := day + 1;
    while next in holidays
      invariant next > day
      invariant forall d :: day < d < next ==> d in holidays
      decreases |Following(holidays, next - 1)|
    {
      assert Following(holidays, next - 1) == Following(holidays, next) + {next};
      next := next + 1;
    }
    LeastIsUnique(day, holidays, next);
  }

  lemma LeastIsUnique(day: Day, holidays: set<Day>, next: Day)
    requires next > day && next !in holidays && forall d :: day < d < next ==> d in holidays
    ensures next == NextNonHoliday(day, holidays)
  {
    var r := NextNonHoliday(day, holidays);
    assert r < next ==> r in holidays;
  }

  // ── One day ──

  predicate Skipped(p: Plan, day: Day) {
    day in p.holidays && p.handling.SkipAndKeep?
  }

  function Target(p: Plan, day: Day): Day {
    if day in p.holidays && p.handling.SkipAndShift? then NextNonHoliday(day, p.holidays) else day
  }

  /** The template of a day: its slot in the cycle that began on the first day. */
  function TemplateOn(p: Plan, day: Day): Option<Template>
    requires p.cycleDays >= 1
  {
    var slot := (day - p.start) % p.cycleDays;
    if slot in p.slots && p.slots[slot] in p.templates then Some(p.templates[p.slots[slot]]) else None
  }

  /** A day that gets shifts. */
  predicate Worked(p: Plan, day: Day)
    requires p.cycleDays >= 1
  {
    p.start <= day <= p.end && !Skipped(p, day) && TemplateOn(p, day).Some?
  }

  function Combine(day: Day, time: nat): int {
    day * MINUTES + time
  }

  function ShiftOn(p: Plan, day: Day, e: Employee): Shift
    requires p.cycleDays >= 1 && TemplateOn(p, day).Some? && e.primaryOrg.Some?
  {
    var t := TemplateOn(p, day).value;
    var startAt, endAt := Combine(Target(p, day), t.startTime), Combine(Target(p, day), t.endTime);
    Shift(e.id, e.primaryOrg.value, t.shiftTypeId, t.id, startAt, if endAt <= startAt then endAt + MINUTES else endAt)
  }

  /** The day itself, or under the policy that shifts the first later one that is no loaded holiday. */
  ghost predicate FallsOn(p: Plan, day: Day, target: Day) {
    if day in p.holidays && p.handling.SkipAndShift? then
      target > day && target !in p.holidays && forall d :: day < d < target ==> d in p.holidays
    else target == day
  }

  /** The shift of an employee for a day: of the template in the day's slot of the cycle, for the employee's
      primary organization, from the template's start time on the day it falls on to the next time it is the
      template's end time. */
  ghost predicate IsShiftOf(p: Plan, day: Day, e: Employee, s: Shift)
    requires p.cycleDays >= 1
  {
    var slot := (day - p.start) % p.cycleDays;
    && slot in p.slots && p.slots[slot] in p.templates
    && s.employeeId == e.id && e.primaryOrg == Some(s.organizationId)
    && s.templateId == p.slots[slot] && s.shiftTypeId == p.templates[p.slots[slot]].shiftTypeId
    && FallsOn(p, day, s.startAt / MINUTES)
    && s.startAt % MINUTES == p.templates[p.slots[slot]].startTime
    && s.endAt % MINUTES == p.templates[p.slots[slot]].endTime
    && 0 < s.endAt - s.startAt <= MINUTES
  }

  lemma DayAndTime(day: Day, time: nat)
    requires time < MINUTES
    ensures Combine(day, time) / MINUTES == day && Combine(day, time) % MINUTES == time
    ensures (Combine(day, time) + MINUTES) % MINUTES == time
  {
  }

  lemma ShiftOnIs(p: Plan, day: Day, e: Employee)
    requires ValidPlan(p) && Worked(p, day) && e.primaryOrg.Some?
    ensures IsShiftOf(p, day, e, ShiftOn(p, day, e))
    ensures ShiftOn(p, day, e).startAt / MINUTES == Target(p, day)
  {
    var t := TemplateOn(p, day).value;
    DayAndTime(Target(p, day), t.startTime);
    DayAndTime(Target(p, day), t.endTime);
  }

  lemma SameInstant(a: int, b: int)
    requires a / MINUTES == b / MINUTES && a % MINUTES == b % MINUTES
    ensures a == b
  {
  }

  lemma SameEnd(start: int, a: int, b: int)
    requires a % MINUTES == b % MINUTES && 0 < a - start <= MINUTES && 0 < b - start <= MINUTES
    ensures a == b
  {
  }

  lemma FallsOnOne(p: Plan, day: Day, a: Day, b: Day)
    requires FallsOn(p, day, a) && FallsOn(p, day, b)
    ensures a >= b
  {
  }

  /** There is one such shift only. */
  lemma ShiftIsUnique(p: Plan, day: Day, e: Employee, s: Shift, s': Shift)
    requires p.cycleDays >= 1 && IsShiftOf(p, day, e, s) && IsShiftOf(p, day, e, s')
    ensures s == s'
  {
    FallsOnOne(p, day, s.startAt / MINUTES, s'.startAt / MINUTES);
    FallsOnOne(p, day, s'.startAt / MINUTES, s.startAt / MINUTES);
    SameInstant(s.startAt, s'.startAt);
    SameEnd(s.startAt, s.endAt, s'.endAt);
  }

  /** Under both policies that skip, shifts start outside the loaded holidays; without skipping they
      start on the day itself. */
  lemma StartsOutsideHolidays(p: Plan, day: Day)
    requires ValidPlan(p) && Worked(p, day)
    ensures !p.handling.NoSkip? ==> Target(p, day) !in p.holidays
    ensures p.handling.NoSkip? || day !in p.holidays ==> Target(p, day) == day
    ensures Target(p, day) <= p.end + 1
  {
    assert p.end + 1 !in p.holidays;
  }

  /** Only the holidays between the two dates are loaded, so a shifted day can land on one beyond:
      exactly when every day from it to the last is a holiday and the day after is one too. */
  lemma LandsOnHolidayIff(p: Plan, calendar: set<Day>, day: Day)
    requires ValidPlan(p) && Worked(p, day) && p.handling.SkipAndShift?
    requires p.holidays == set h | h in calendar && p.start <= h <= p.end
    ensures Target(p, day) in calendar <==> forall d :: day <= d <= p.end + 1 ==> d in calendar
  {
    var target := Target(p, day);
    StartsOutsideHolidays(p, day);
    assert target <= p.end ==> target !in calendar;
    if target in calendar {
      forall d | day <= d <= p.end + 1 ensures d in calendar {
        assert d < target ==> d in p.holidays;
      }
    }
  }

  /** The last requested day and the day after are holidays: the shift moves from the one to the other. */
  lemma LandsOnHoliday()
    ensures var calendar := {10, 11};
            var p := Plan(10, 10, 1, map[0 := 1], SkipAndShift, {10}, map[1 := Template(1, 1, 540, 1080)]);
            && ValidPlan(p) && p.holidays == (set h | h in calendar && p.start <= h <= p.end)
            && Worked(p, 10) && Target(p, 10) == 11 && Target(p, 10) in calendar
  {
    var calendar := {10, 11};
    var p := Plan(10, 10, 1, map[0 := 1], SkipAndShift, {10}, map[1 := Template(1, 1, 540, 1080)]);
    assert Worked(p, 10);
    LandsOnHolidayIff(p, calendar, 10);
    StartsOutsideHolidays(p, 10);
  }

  // ── All days ──

  function Staffed(employees: seq<Employee>): (r: seq<Employee>)
    ensures forall e :: e in r <==> e in employees && e.primaryOrg.Some?
  {
    if employees == [] then []
    else
      var last := employees[|employees| - 1];
      assert employees == employees[..|employees| - 1] + [last];
      Staffed(employees[..|employees| - 1]) + (if last.primaryOrg.Some? then [last] else [])
  }

  /** Those with a primary organization, as often as they are given. */
  lemma {:induction false} StaffedCounts(employees: seq<Employee>, e: Employee)
    ensures multiset(Staffed(employees))[e] == if e.primaryOrg.Some? then multiset(employees)[e] else 0
  {
    if employees != [] {
      var n := |employees| - 1;
      StaffedCounts(employees[..n], e);
      assert employees == employees[..n] + [employees[n]];
    }
  }

  predicate AllStaffed(staff: seq<Employee>) {
    forall k :: 0 <= k < |staff| ==> staff[k].primaryOrg.Some?
  }

  function ShiftsOn(p: Plan, day: Day, staff: seq<Employee>): (r: seq<Shift>)
    requires p.cycleDays >= 1 && TemplateOn(p, day).Some? && AllStaffed(staff)
    ensures |r| == |staff|
  {
    seq(|staff|, k requires 0 <= k < |staff| => ShiftOn(p, day, staff[k]))
  }

  /** The days that get shifts, before `day`. */
  function WorkedBefore(p: Plan, day: Day): (r: seq<Day>)
    requires p.cycleDays >= 1
    ensures AllWorked(p, r)
    decreases day - p.start
  {
    if day <= p.start then []
    else WorkedBefore(p, day - 1) + (if Worked(p, day - 1) then [day - 1] else [])
  }

  /** They are all days of the period that are not skipped and have a known template in their slot, each
      once and in order. */
  lemma {:induction false} WorkedDays(p: Plan, day: Day)
    requires p.cycleDays >= 1
    ensures forall d :: d in WorkedBefore(p, day) <==>
              && p.start <= d <= p.end && d < day && !(d in p.holidays && p.handling.SkipAndKeep?)
              && (d - p.start) % p.cycleDays in p.slots && p.slots[(d - p.start) % p.cycleDays] in p.templates
    ensures forall i, j :: 0 <= i < j < |WorkedBefore(p, day)| ==> WorkedBefore(p, day)[i] < WorkedBefore(p, day)[j]
    decreases day - p.start
  {
    if day > p.start {
      WorkedDays(p, day - 1);
      var before := WorkedBefore(p, day - 1);
      assert forall k :: 0 <= k < |before| ==> before[k] in before;
    }
  }

  predicate AllWorked(p: Plan, days: seq<Day>)
    requires p.cycleDays >= 1
  {
    forall k :: 0 <= k < |days| ==> Worked(p, days[k])
  }

  function Expand(p: Plan, days: seq<Day>, staff: seq<Employee>): seq<Shift>
    requires p.cycleDays >= 1 && AllStaffed(staff) && AllWorked(p, days)
  {
    if days == [] then []
    else Expand(p, days[..|days| - 1], staff) + ShiftsOn(p, days[|days| - 1], staff)
  }

  /** One shift for each day that is worked and each employee with a primary organization, in that
      order, and no others: the shift at position i * |staff| + j is that of the i-th day and the j-th
      employee. */
  lemma {:induction false} ExpandAt(p: Plan, days: seq<Day>, staff: seq<Employee>, i: nat, j: nat)
    requires p.cycleDays >= 1 && AllStaffed(staff) && AllWorked(p, days)
    ensures |Expand(p, days, staff)| == |days| * |staff|
    ensures i < |days| && j < |staff| ==>
              && i * |staff| + j < |days| * |staff|
              && Expand(p, days, staff)[i * |staff| + j] == ShiftOn(p, days[i], staff[j])
    decreases |days|
  {
    if days != [] {
      var n := |days| - 1;
      ExpandAt(p, days[..n], staff, i, j);
      Distribute(n, |staff|);
      if i < n && j < |staff| {
        assert n * |staff| <= |days| * |staff|;
      }
    }
  }

  lemma Distribute(n: nat, m: nat)
    ensures (n + 1) * m == n * m + m
  {
  }

  function DayShifts(p: Plan, day: Day, staff: seq<Employee>): seq<Shift>
    requires p.cycleDays >= 1 && AllStaffed(staff)
  {
    if Worked(p, day) then ShiftsOn(p, day, staff) else []
  }

  /** The shifts of all days before `day`. */
  function ShiftsBefore(p: Plan, day: Day, staff: seq<Employee>): seq<Shift>
    requires p.cycleDays >= 1 && AllStaffed(staff)
    decreases day - p.start
  {
    if day <= p.start then [] else ShiftsBefore(p, day - 1, staff) + DayShifts(p, day - 1, staff)
  }

  lemma ExpandSnoc(p: Plan, days: seq<Day>, day: Day, staff: seq<Employee>)
    requires p.cycleDays >= 1 && AllStaffed(staff) && AllWorked(p, days) && Worked(p, day)
    ensures Expand(p, days + [day], staff) == Expand(p, days, staff) + ShiftsOn(p, day, staff)
  {
    assert (days + [day])[..|days|] == days;
  }

  /** Going day by day gives the worked days' shifts and nothing else. */
  lemma {:induction false} DayByDay(p: Plan, day: Day, staff: seq<Employee>)
    requires p.cycleDays >= 1 && AllStaffed(staff)
    ensures ShiftsBefore(p, day, staff) == Expand(p, WorkedBefore(p, day), staff)
    decreases day - p.start
  {
    if day > p.start {
      DayByDay(p, day - 1, staff);
      if Worked(p, day - 1) {
        ExpandSnoc(p, WorkedBefore(p, day - 1), day - 1, staff);
      } else {
        assert WorkedBefore(p, day) == WorkedBefore(p, day - 1);
        assert ShiftsBefore(p, day, staff) == ShiftsBefore(p, day - 1, staff);
      }
    }
  }

  function AllShifts(p: Plan, employees: seq<Employee>): seq<Shift>
    requires p.cycleDays >= 1
  {
    ShiftsBefore(p, p.end + 1, Staffed(employees))
  }

  /** All shifts of an application, by position: exactly one for each worked day and each employee with
      a primary organization, so as many as there are such pairs. */
  lemma OneShiftEach(p: Plan, employees: seq<Employee>, i: nat, j: nat)
    requires ValidPlan(p)
    ensures var days, staff, shifts := WorkedBefore(p, p.end + 1), Staffed(employees), AllShifts(p, employees);
            && |shifts| == |days| * |staff|
            && (i < |days| && j < |staff| ==>
                 i * |staff| + j < |shifts| && IsShiftOf(p, days[i], staff[j], shifts[i * |staff| + j]))
  {
    var days, staff := WorkedBefore(p, p.end + 1), Staffed(employees);
    DayByDay(p, p.end + 1, staff);
    ExpandAt(p, days, staff, i, j);
    if i < |days| && j < |staff| {
      assert Worked(p, days[i]) && staff[j] in staff;
      ShiftOnIs(p, days[i], staff[j]);
    }
  }

  /** Two days are moved to one exactly when days are shifted and the earlier one and all between are
      holidays. */
  lemma SharedTargetIff(p: Plan, a: Day, b: Day)
    requires a < b
    ensures Target(p, a) == Target(p, b) <==> p.handling.SkipAndShift? && forall d :: a <= d < b ==> d in p.holidays
  {
    var next := Target(p, b);
    if p.handling.SkipAndShift? && forall d :: a <= d < b ==> d in p.holidays {
      assert a in p.holidays;
      if b in p.holidays {
        assert forall d :: a < d < next ==> d in p.holidays;
      }
      LeastIsUnique(a, p.holidays, next);
    }
  }

  /** An employee gets the very same shift for two worked days exactly when both have one template and
      the earlier day was shifted over holidays up to the later one. */
  lemma BookedTwiceIff(p: Plan, a: Day, b: Day, e: Employee)
    requires ValidPlan(p) && Worked(p, a) && Worked(p, b) && a < b && e.primaryOrg.Some?
    ensures ShiftOn(p, a, e) == ShiftOn(p, b, e) <==>
            && TemplateOn(p, a) == TemplateOn(p, b)
            && p.handling.SkipAndShift?
            && forall d :: a <= d < b ==> d in p.holidays
  {
    SharedTargetIff(p, a, b);
    ShiftOnIs(p, a, e);
    ShiftOnIs(p, b, e);
  }

  lemma TwoWorkedDays(p: Plan)
    requires p.start == 10 && p.end == 11 && p.cycleDays >= 1 && Worked(p, 10) && Worked(p, 11)
    ensures WorkedBefore(p, 12) == [10, 11]
  {
    assert WorkedBefore(p, 10) == [];
    assert WorkedBefore(p, 11) == [10];
  }

  lemma TwoShifts(p: Plan, e: Employee)
    requires p.start == 10 && p.end == 11 && p.cycleDays >= 1 && WorkedBefore(p, 12) == [10, 11] && e.primaryOrg.Some?
    ensures Worked(p, 10) && Worked(p, 11) && AllShifts(p, [e]) == [ShiftOn(p, 10, e), ShiftOn(p, 11, e)]
  {
    assert WorkedBefore(p, 12)[0] == 10 && WorkedBefore(p, 12)[1] == 11;
    assert [e][..0] == [] && Staffed([e]) == [e];
    DayByDay(p, 12, [e]);
    ExpandAt(p, [10, 11], [e], 0, 0);
    ExpandAt(p, [10, 11], [e], 1, 0);
  }

  /** A holiday and the working day after it: the employee gets that day's shift twice. */
  lemma BookedTwice(e: Employee)
    requires e.primaryOrg.Some?
    ensures var p := Plan(10, 11, 1, map[0 := 1], SkipAndShift, {10}, map[1 := Template(1, 1, 540, 1080)]);
            && ValidPlan(p) && WorkedBefore(p, 12) == [10, 11]
            && AllShifts(p, [e]) == [ShiftOn(p, 10, e), ShiftOn(p, 11, e)]
            && ShiftOn(p, 10, e) == ShiftOn(p, 11, e)
  {
    var p := Plan(10, 11, 1, map[0 := 1], SkipAndShift, {10}, map[1 := Template(1, 1, 540, 1080)]);
    assert Worked(p, 10) && Worked(p, 11);
    BookedTwiceIff(p, 10, 11, e);
    TwoWorkedDays(p);
    TwoShifts(p, e);
  }

  /** The shift of the `i`-th day and the `j`-th employee is in its place. */
  ghost predicate ShiftAt(p: Plan, days: seq<Day>, staff: seq<Employee>, shifts: seq<Shift>, i: nat, j: nat)
    requires p.cycleDays >= 1
  {
    i < |days| && j < |staff| ==>
      i * |staff| + j < |shifts| && IsShiftOf(p, days[i], staff[j], shifts[i * |staff| + j])
  }

  /** There is one shift for each day and employee, in its place, and no other. */
  ghost predicate OneEach(p: Plan, days: seq<Day>, staff: seq<Employee>, shifts: seq<Shift>)
    requires p.cycleDays >= 1
  {
    |shifts| == |days| * |staff| && forall i, j :: ShiftAt(p, days, staff, shifts, i, j)
  }

  lemma AllShiftsOneEach(p: Plan, employees: seq<Employee>)
    requires ValidPlan(p)
    ensures OneEach(p, WorkedBefore(p, p.end + 1), Staffed(employees), AllShifts(p, employees))
  {
    var days, staff, shifts := WorkedBefore(p, p.end + 1), Staffed(employees), AllShifts(p, employees);
    forall i, j ensures ShiftAt(p, days, staff, shifts, i, j) {
      OneShiftEach(p, employees, i, j);
    }
    OneShiftEach(p, employees, 0, 0);
  }

  datatype PatternError = InvalidEmployees

  /** The loop over the days. */
  method ApplyPattern(p: Plan, employeeIds: seq<Id>, employees: seq<Employee>)
    returns (outcome: Result<seq<Shift>, PatternError>)
    requires ValidPlan(p)
    ensures outcome == if |employees| != |employeeIds| then Failure(InvalidEmployees) else Success(AllShifts(p, employees))
    ensures outcome.Success? ==> OneEach(p, WorkedBefore(p, p.end + 1), Staffed(employees), outcome.value)
  {
    if |employees| != |employeeIds| {
      return Failure(InvalidEmployees);
    }
    ghost var staff := Staffed(employees);
    var shiftsToCreate: seq<Shift> := [];
    var cursor := p.start;
    while cursor <= p.end
      invariant p.start <= cursor && (cursor <= p.end + 1 || cursor == p.start)
      invariant shiftsToCreate == ShiftsBefore(p, cursor, staff)
      decreases p.end - cursor
    {
      var more := ShiftsOfDay(p, cursor, employees);
      shiftsToCreate := shiftsToCreate + more;
      cursor := cursor + 1;
    }
    assert cursor == p.end + 1 || ShiftsBefore(p, p.end + 1, staff) == [];
    AllShiftsOneEach(p, employees);
    outcome := Success(shiftsToCreate);
  }

  /** One turn of that loop. */
  method ShiftsOfDay(p: Plan, cursor: Day, employees: seq<Employee>) returns (shifts: seq<Shift>)
    requires ValidPlan(p) && p.start <= cursor <= p.end
    ensures shifts == DayShifts(p, cursor, Staffed(employees))
  {
    var isHoliday := cursor in p.holidays;
    if isHoliday && p.handling.SkipAndKeep? {
      return [];
    }
    var targetDate := cursor;
    if isHoliday && p.handling.SkipAndShift? {
      targetDate := FindNextNonHoliday(cursor, p.holidays);
    }
    var slot := (cursor - p.start) % p.cycleDays;
    shifts := [];
    if slot in p.slots && p.slots[slot] in p.templates {
      shifts := ShiftsOfTemplate(p, cursor, targetDate, p.templates[p.slots[slot]], employees);
    }
  }

  /** The loop over the employees. */
  method ShiftsOfTemplate(p: Plan, day: Day, targetDate: Day, template: Template, employees: seq<Employee>)
    returns (shifts: seq<Shift>)
    requires p.cycleDays >= 1 && TemplateOn(p, day) == Some(template) && targetDate == Target(p, day)
    ensures shifts == ShiftsOn(p, day, Staffed(employees))
  {
    shifts := [];
    for k := 0 to |employees|
      invariant shifts == ShiftsOn(p, day, Staffed(employees[..k]))
    {
      var employee := employees[k];
      assert employees[..k + 1][..k] == employees[..k];
      if employee.primaryOrg.None? { continue; }
      var startAt := Combine(targetDate, template.startTime);
      var endAt := Combine(targetDate, template.endTime);
      var adjustedEndAt := if endAt <= startAt then endAt + MINUTES else endAt;
      shifts := shifts + [Shift(employee.id, employee.primaryOrg.value, template.shiftTypeId, template.id, startAt, adjustedEndAt)];
    }
    assert employees[..|employees|] == employees;
  }
}
