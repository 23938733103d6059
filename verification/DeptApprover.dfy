/**
 * Finding the approver of a request's department: climb from the requester's department, at most
 * twenty levels, until one has an administrator other than the requester.
 */
module DeptApprover {
  import opened Wrappers
  import opened Organizations

  datatype Level = OrgAdminLevel | GeneralAdminLevel | OtherLevel

  datatype Employee = Employee(id: Id, level: Level, isActive: bool, orgs: set<Id>)

  const GUARD := 20

  predicate Serves(e: Employee, org: Id, level: Level, requester: Id) {
    e.isActive && e.id != requester && e.level == level && org in e.orgs
  }

  predicate NobodyServes(employees: seq<Employee>, org: Id, level: Level, requester: Id) {
    forall k :: 0 <= k < |employees| ==> !Serves(employees[k], org, level, requester)
  }

  /** The first who serves, in the order the employees were created. */
  function FirstServing(employees: seq<Employee>, org: Id, level: Level, requester: Id): (r: Option<Id>)
    ensures r.None? <==> NobodyServes(employees, org, level, requester)
    ensures r.Some? ==> exists k :: (
      && 0 <= k < |employees| && Serves(employees[k], org, level, requester) && employees[k].id == r.value
      && forall j :: 0 <= j < k ==> !Serves(employees[j], org, level, requester))
  {
    if employees == [] then None
    else
      var n := |employees| - 1;
      var before := FirstServing(employees[..n], org, level, requester);
      if before.Some? then before
      else if Serves(employees[n], org, level, requester) then Some(employees[n].id) else None
  }

  /** A department's administrator, or else its general administrator. */
  function ApproverAt(employees: seq<Employee>, org: Id, requester: Id): Option<Id> {
    var admin := FirstServing(employees, org, OrgAdminLevel, requester);
    if admin.Some? then admin else FirstServing(employees, org, GeneralAdminLevel, requester)
  }

  function ParentOf(orgs: Orgs, org: Id): Option<Id> {
    if org in orgs then orgs[org].parent else None
  }

  /** The approver found from the `k`-th ancestor on. */
  function ClimbFrom(orgs: Orgs, employees: seq<Employee>, requester: Id, cursor: Option<Id>, k: nat): Option<Id>
    decreases GUARD - k
  {
    if cursor.None? || k >= GUARD then None
    else
      var found := ApproverAt(employees, cursor.value, requester);
      if found.Some? then found
      else ClimbFrom(orgs, employees, requester, ParentOf(orgs, cursor.value), k + 1)
  }

  method ResolveDeptApprover(orgs: Orgs, employees: seq<Employee>, requester: Id, primary: Option<Id>)
    returns (approver: Option<Id>)
    ensures approver == ClimbFrom(orgs, employees, requester, primary, 0)
  {
    var orgId, guard := primary, 0;
    while orgId.Some? && guard < GUARD
      invariant guard <= GUARD
      invariant ClimbFrom(orgs, employees, requester, primary, 0) == ClimbFrom(orgs, employees, requester, orgId, guard)
      decreases GUARD - guard
    {
      guard := guard + 1;
      approver := FirstServing(employees, orgId.value, OrgAdminLevel, requester);
      if approver.Some? { return; }
      approver := FirstServing(employees, orgId.value, GeneralAdminLevel, requester);
      if approver.Some? { return; }
      orgId := ParentOf(orgs, orgId.value);
    }
    approver := None;
  }

  /** The approver of the `k`-th ancestor of a department, if it has that ancestor and one serves. */
  function ApproverAbove(orgs: Orgs, employees: seq<Employee>, requester: Id, primary: Id, k: nat): Option<Id> {
    match Ancestor(orgs, primary, k)
    case None => None
    case Some(a) => ApproverAt(employees, a, requester)
  }

  /** Nobody up to level `j`. */
  ghost predicate NobodyBelow(orgs: Orgs, employees: seq<Employee>, requester: Id, primary: Id, k: nat, j: nat) {
    forall i: nat :: k <= i < j ==> ApproverAbove(orgs, employees, requester, primary, i).None?
  }

  lemma OneLevel(orgs: Orgs, employees: seq<Employee>, requester: Id, primary: Id, k: nat)
    requires k < GUARD
    ensures var r, found := ClimbFrom(orgs, employees, requester, Ancestor(orgs, primary, k), k),
                            ApproverAbove(orgs, employees, requester, primary, k);
            r == if found.Some? then found else ClimbFrom(orgs, employees, requester, Ancestor(orgs, primary, k + 1), k + 1)
  {
  }

  /** `r` is the approver of the nearest department from level `k` on that has one, or nobody if none
      below the guard has. */
  ghost predicate Nearest(orgs: Orgs, employees: seq<Employee>, requester: Id, primary: Id, k: nat, r: Option<Id>) {
    && (r.None? <==> NobodyBelow(orgs, employees, requester, primary, k, GUARD))
    && (r.Some? ==> exists j: nat :: (
          && k <= j < GUARD && r == ApproverAbove(orgs, employees, requester, primary, j)
          && NobodyBelow(orgs, employees, requester, primary, k, j)))
  }

  lemma NearestFrom(orgs: Orgs, employees: seq<Employee>, requester: Id, primary: Id, k: nat, above: Option<Id>)
    requires k < GUARD && Nearest(orgs, employees, requester, primary, k + 1, above)
    ensures var found := ApproverAbove(orgs, employees, requester, primary, k);
            Nearest(orgs, employees, requester, primary, k, if found.Some? then found else above)
  {
    if ApproverAbove(orgs, employees, requester, primary, k).Some? {
      assert NobodyBelow(orgs, employees, requester, primary, k, k);
    } else if above.Some? {
      var j: nat :| k + 1 <= j < GUARD && above == ApproverAbove(orgs, employees, requester, primary, j)
        && NobodyBelow(orgs, employees, requester, primary, k + 1, j);
      assert NobodyBelow(orgs, employees, requester, primary, k, j);
    }
  }

  /** Climbing finds the approver of the nearest of the first twenty departments upwards that has
      one, and nobody exactly when none of them has; the hierarchy may even have cycles. */
  lemma {:induction false} ClimbFindsNearest(orgs: Orgs, employees: seq<Employee>, requester: Id, primary: Id, k: nat)
    requires k <= GUARD
    ensures Nearest(orgs, employees, requester, primary, k, ClimbFrom(orgs, employees, requester, Ancestor(orgs, primary, k), k))
    decreases GUARD - k
  {
    if k < GUARD {
      OneLevel(orgs, employees, requester, primary, k);
      ClimbFindsNearest(orgs, employees, requester, primary, k + 1);
      NearestFrom(orgs, employees, requester, primary, k,
                  ClimbFrom(orgs, employees, requester, Ancestor(orgs, primary, k + 1), k + 1));
    }
  }

  /** Whoever is found is not the requester, and a general administrator is found only in a department
      without an administrator of its own. */
  lemma ApproverIsSomeoneElse(orgs: Orgs, employees: seq<Employee>, requester: Id, primary: Id)
    ensures var r := ClimbFrom(orgs, employees, requester, Some(primary), 0);
            r.Some? ==> r.value != requester && exists k, j: nat :: (
              && 0 <= k < |employees| && employees[k].id == r.value && employees[k].isActive && j < GUARD
              && Ancestor(orgs, primary, j).Some? && Ancestor(orgs, primary, j).value in employees[k].orgs
              && (employees[k].level.OrgAdminLevel? ||
                  (employees[k].level.GeneralAdminLevel? &&
                   NobodyServes(employees, Ancestor(orgs, primary, j).value, OrgAdminLevel, requester))))
  {
    ClimbFindsNearest(orgs, employees, requester, primary, 0);
    assert Ancestor(orgs, primary, 0) == Some(primary);
  }
}
