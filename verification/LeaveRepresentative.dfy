/**
 * The type whose balance a leave debits and the type an accrual rule credits. Two services look for
 * them, each in its own way and each in whatever order the database lists the types.
 */
module LeaveRepresentative {
  import opened Wrappers
  import opened LeaveLedger
  import opened LeaveAccrual

  ghost predicate UniqueIds(cat: Catalogue) {
    forall i, j :: 0 <= i < j < |cat| ==> cat[i].id != cat[j].id
  }

  /** Two listings of the same types. */
  ghost predicate SameTypes(a: Catalogue, b: Catalogue) {
    UniqueIds(a) && UniqueIds(b) && forall t :: t in a <==> t in b
  }

  predicate ActiveIn(cat: Catalogue, group: Id, t: LeaveType) {
    t in cat && t.group == group && t.isActive
  }

  /** The types a group's days may be kept in: its active full-day types, or else any active one. */
  ghost predicate IsCandidate(cat: Catalogue, group: Id, t: LeaveType) {
    ActiveIn(cat, group, t) && (IsRepresentative(t) || forall u :: ActiveIn(cat, group, u) ==> !IsRepresentative(u))
  }

  // ── What the searches return ──

  lemma {:induction false} ActiveTypesOfMembers(cat: Catalogue, group: Id, t: LeaveType)
    ensures t in ActiveTypesOf(cat, group) <==> ActiveIn(cat, group, t)
  {
    if cat != [] {
      ActiveTypesOfMembers(cat[1..], group, t);
      assert cat == [cat[0]] + cat[1..];
    }
  }

  lemma {:induction false} OfGroupMembers(cat: Catalogue, group: Id, t: LeaveType)
    ensures t in OfGroup(cat, group) <==> t in cat && t.group == group
  {
    if cat != [] {
      OfGroupMembers(cat[1..], group, t);
      assert cat == [cat[0]] + cat[1..];
    }
  }

  lemma {:induction false} ActiveTypesMembers(cat: Catalogue, t: LeaveType)
    ensures t in ActiveTypes(cat) <==> t in cat && t.isActive
  {
    if cat != [] {
      ActiveTypesMembers(cat[1..], t);
      assert cat == [cat[0]] + cat[1..];
    }
  }

  lemma {:induction false} FirstRepresentativeIs(types: Catalogue)
    ensures FirstRepresentative(types).None? <==> forall t :: t in types ==> !IsRepresentative(t)
    ensures FirstRepresentative(types).Some? ==>
              FirstRepresentative(types).value in types && IsRepresentative(FirstRepresentative(types).value)
  {
    if types != [] {
      FirstRepresentativeIs(types[1..]);
      assert types[0] in types;
      assert types == [types[0]] + types[1..];
    }
  }

  /** The pool both searches look in, when the group has an active type. */
  lemma PoolIs(cat: Catalogue, group: Id, t: LeaveType)
    ensures t in ActiveTypes(OfGroup(cat, group)) <==> ActiveIn(cat, group, t)
  {
    ActiveTypesMembers(OfGroup(cat, group), t);
    OfGroupMembers(cat, group, t);
  }

  /** The rule credits a candidate, and nothing iff the group has no active type. */
  lemma CreditedIsCandidate(cat: Catalogue, group: Id)
    ensures var credited := PickRepresentativeLeaveType(ActiveTypesOf(cat, group));
            && (credited.None? <==> forall t :: !ActiveIn(cat, group, t))
            && (credited.Some? ==> IsCandidate(cat, group, credited.value))
  {
    var types := ActiveTypesOf(cat, group);
    forall t ensures t in types <==> ActiveIn(cat, group, t) { ActiveTypesOfMembers(cat, group, t); }
    if types != [] {
      assert types[0] in types;
      var i := FullDayPlace(types);
      assert i < |types| ==> types[i] in types;
    }
  }

  /** A leave of a group with an active type debits a candidate's balance. */
  lemma DebitedIsCandidate(cat: Catalogue, id: Id, group: Id) returns (rep: LeaveType)
    requires FindType(cat, id).Some? && FindType(cat, id).value.group == group
    requires exists t :: ActiveIn(cat, group, t)
    ensures IsCandidate(cat, group, rep) && ResolveBalanceType(cat, id) == rep.id
  {
    var pool := ActiveTypes(OfGroup(cat, group));
    forall t ensures t in pool <==> ActiveIn(cat, group, t) { PoolIs(cat, group, t); }
    FirstRepresentativeIs(pool);
    var t :| ActiveIn(cat, group, t);
    assert t in pool && pool[0] in pool;
    rep := if FirstRepresentative(pool).Some? then FirstRepresentative(pool).value else pool[0];
  }

  // ── One listing ──

  lemma {:induction false} ActiveTypesOfIsPool(cat: Catalogue, group: Id)
    ensures ActiveTypesOf(cat, group) == ActiveTypes(OfGroup(cat, group))
  {
    if cat != [] {
      ActiveTypesOfIsPool(cat[1..], group);
      if cat[0].group == group {
        assert OfGroup(cat, group) == [cat[0]] + OfGroup(cat[1..], group);
        assert OfGroup(cat, group)[1..] == OfGroup(cat[1..], group);
      } else {
        assert OfGroup(cat, group) == OfGroup(cat[1..], group);
      }
    }
  }

  lemma {:induction false} FullDayPlaceIsFirst(types: Catalogue)
    ensures FirstRepresentative(types) ==
            if FullDayPlace(types) < |types| then Some(types[FullDayPlace(types)]) else None
  {
    if types != [] { FullDayPlaceIsFirst(types[1..]); }
  }

  /** When both services get the types in the same order, a leave debits the very type the rule of its
      group credits. */
  lemma DebitedTypeIsCredited(cat: Catalogue, id: Id)
    requires FindType(cat, id).Some?
    requires exists t :: ActiveIn(cat, FindType(cat, id).value.group, t)
    ensures var credited := PickRepresentativeLeaveType(ActiveTypesOf(cat, FindType(cat, id).value.group));
            credited.Some? && credited.value.id == ResolveBalanceType(cat, id)
  {
    var group := FindType(cat, id).value.group;
    ActiveTypesOfIsPool(cat, group);
    CreditedIsCandidate(cat, group);
    FullDayPlaceIsFirst(ActiveTypesOf(cat, group));
  }

  lemma {:induction false} FindUnique(cat: Catalogue, t: LeaveType)
    requires UniqueIds(cat) && t in cat
    ensures FindType(cat, t.id) == Some(t)
  {
    var r := FindType(cat, t.id).value;
    var i :| 0 <= i < |cat| && cat[i] == t;
    var j :| 0 <= j < |cat| && cat[j] == r;
  }

  /** The balance type of a group is kept in itself: resolving again changes nothing, and a leave of
      any type of the group goes there. */
  lemma ResolveIsIdempotent(cat: Catalogue, id: Id)
    requires UniqueIds(cat) && FindType(cat, id).Some?
    ensures ResolveBalanceType(cat, ResolveBalanceType(cat, id)) == ResolveBalanceType(cat, id)
    ensures FindType(cat, ResolveBalanceType(cat, id)).Some?
    ensures FindType(cat, ResolveBalanceType(cat, id)).value.group == FindType(cat, id).value.group
  {
    var t := FindType(cat, id).value;
    var rep := ResolvedType(cat, id, t);
    FindUnique(cat, rep);
  }

  lemma ResolvedType(cat: Catalogue, id: Id, t: LeaveType) returns (rep: LeaveType)
    requires FindType(cat, id) == Some(t)
    ensures rep in cat && rep.group == t.group && rep.id == ResolveBalanceType(cat, id)
  {
    var types := OfGroup(cat, t.group);
    var pool := if ActiveTypes(types) != [] then ActiveTypes(types) else types;
    FirstRepresentativeIs(pool);
    OfGroupMembers(cat, t.group, t);
    rep := if FirstRepresentative(pool).Some? then FirstRepresentative(pool).value else pool[0];
    assert rep in pool;
    ActiveTypesMembers(types, rep);
    OfGroupMembers(cat, t.group, rep);
  }

  /** All types of a group share one balance type. */
  lemma GroupSharesBalance(cat: Catalogue, a: Id, b: Id)
    requires FindType(cat, a).Some? && FindType(cat, b).Some?
    requires FindType(cat, a).value.group == FindType(cat, b).value.group
    ensures ResolveBalanceType(cat, a) == ResolveBalanceType(cat, b)
  {
    var t := ResolvedType(cat, a, FindType(cat, a).value);
  }

  /** A leave of a group debits the very row that a run of the group's rule in that year credits. */
  lemma LeaveDebitsCreditedRow(ledger: Ledger, cat: Catalogue, leave: Leave, items: seq<RuleItem>,
                               employees: seq<Employee>, reference: Date, expiry: ExpiryOf, i: nat)
    requires FindType(cat, leave.leaveType).Some?
    requires exists t :: ActiveIn(cat, FindType(cat, leave.leaveType).value.group, t)
    requires i < |employees| && employees[i].id == leave.employee
    requires AccrualFor(items, employees[i], leave.startDate.year, reference, expiry).Some?
    ensures var group, year := FindType(cat, leave.leaveType).value.group, leave.startDate.year;
            var after := RunGroupRule(ledger, cat, group, items, employees, year, reference, expiry).0;
            && ChargedKey(cat, leave) in after.balances
            && after.balances[ChargedKey(cat, leave)].accrued >=
                 AccrualFor(items, employees[i], year, reference, expiry).value.targetDays
  {
    DebitedTypeIsCredited(cat, leave.leaveType);
    var group := FindType(cat, leave.leaveType).value.group;
    var credited := PickRepresentativeLeaveType(ActiveTypesOf(cat, group)).value;
    RunReaches(ledger, credited.id, items, employees, leave.startDate.year, reference, expiry);
  }

  // ── Two listings ──

  /** The catalogue without `t`. */
  function WithoutType(cat: Catalogue, t: LeaveType): (r: Catalogue)
    ensures forall u :: u in r <==> u in cat && u != t
  {
    if cat == [] then []
    else (if cat[0] == t then [] else [cat[0]]) + WithoutType(cat[1..], t)
  }

  lemma {:induction false} WithoutTypeUnique(cat: Catalogue, t: LeaveType)
    requires UniqueIds(cat)
    ensures UniqueIds(WithoutType(cat, t))
  {
    if cat != [] {
      WithoutTypeUnique(cat[1..], t);
      var rest := WithoutType(cat[1..], t);
      forall u | u in rest ensures u.id != cat[0].id {
        var j :| 0 <= j < |cat[1..]| && cat[1..][j] == u;
        assert cat[j + 1] == u;
      }
    }
  }

  /** A listing of the same types that starts with `t`. */
  lemma MovedFirst(cat: Catalogue, t: LeaveType)
    requires UniqueIds(cat) && t in cat
    ensures SameTypes(cat, [t] + WithoutType(cat, t))
  {
    WithoutTypeUnique(cat, t);
    var moved, rest := [t] + WithoutType(cat, t), WithoutType(cat, t);
    forall u | u in rest ensures u.id != t.id {
      var i :| 0 <= i < |cat| && cat[i] == u;
      var j :| 0 <= j < |cat| && cat[j] == t;
    }
    forall i, j | 0 <= i < j < |moved| ensures moved[i].id != moved[j].id {
      assert moved[j] == rest[j - 1];
      assert i > 0 ==> moved[i] == rest[i - 1];
    }
  }

  /** A candidate that is listed first is the one credited. */
  lemma FirstCandidateIsCredited(cat: Catalogue, group: Id, t: LeaveType)
    requires cat != [] && cat[0] == t && IsCandidate(cat, group, t)
    ensures PickRepresentativeLeaveType(ActiveTypesOf(cat, group)) == Some(t)
  {
    var types := ActiveTypesOf(cat, group);
    assert types[0] == t;
    var i := FullDayPlace(types);
    if i < |types| {
      assert types[i] in types;
      ActiveTypesOfMembers(cat, group, types[i]);
    }
  }

  /** At most one type the group's days may be kept in. */
  ghost predicate OneCandidate(cat: Catalogue, group: Id) {
    forall t, u :: IsCandidate(cat, group, t) && IsCandidate(cat, group, u) ==> t.id == u.id
  }

  lemma CandidatesSame(a: Catalogue, b: Catalogue, group: Id, t: LeaveType)
    requires SameTypes(a, b)
    ensures IsCandidate(a, group, t) <==> IsCandidate(b, group, t)
  {
  }

  ghost predicate AlwaysAgree(cat: Catalogue, id: Id, group: Id) {
    forall other: Catalogue :: SameTypes(cat, other) ==>
      PickRepresentativeLeaveType(ActiveTypesOf(other, group)).Some? &&
      PickRepresentativeLeaveType(ActiveTypesOf(other, group)).value.id == ResolveBalanceType(cat, id)
  }

  /** Neither query asks for an order. Debit and credit agree whatever order each gets iff the group has
      exactly one type its days may be kept in. */
  lemma OrderIsIrrelevantIff(cat: Catalogue, id: Id, group: Id)
    requires UniqueIds(cat) && FindType(cat, id).Some? && FindType(cat, id).value.group == group
    requires exists t :: ActiveIn(cat, group, t)
    ensures AlwaysAgree(cat, id, group) <==> OneCandidate(cat, group)
  {
    if OneCandidate(cat, group) { AgreesWhenOne(cat, id, group); }
    if AlwaysAgree(cat, id, group) {
      forall t, u | IsCandidate(cat, group, t) && IsCandidate(cat, group, u) ensures t.id == u.id {
        CandidateWhenAgreed(cat, id, group, t);
        CandidateWhenAgreed(cat, id, group, u);
      }
    }
  }

  lemma CandidateWhenAgreed(cat: Catalogue, id: Id, group: Id, t: LeaveType)
    requires UniqueIds(cat) && AlwaysAgree(cat, id, group) && IsCandidate(cat, group, t)
    ensures t.id == ResolveBalanceType(cat, id)
  {
    PickedWhenFirst(cat, group, t);
  }

  lemma PickedWhenFirst(cat: Catalogue, group: Id, t: LeaveType)
    requires UniqueIds(cat) && IsCandidate(cat, group, t)
    ensures SameTypes(cat, [t] + WithoutType(cat, t))
    ensures PickRepresentativeLeaveType(ActiveTypesOf([t] + WithoutType(cat, t), group)) == Some(t)
  {
    MovedFirst(cat, t);
    CandidatesSame(cat, [t] + WithoutType(cat, t), group, t);
    FirstCandidateIsCredited([t] + WithoutType(cat, t), group, t);
  }

  lemma AgreesWhenOne(cat: Catalogue, id: Id, group: Id)
    requires UniqueIds(cat) && FindType(cat, id).Some? && FindType(cat, id).value.group == group
    requires (exists t :: ActiveIn(cat, group, t)) && OneCandidate(cat, group)
    ensures AlwaysAgree(cat, id, group)
  {
    var rep := DebitedIsCandidate(cat, id, group);
    forall other: Catalogue | SameTypes(cat, other)
      ensures PickRepresentativeLeaveType(ActiveTypesOf(other, group)).Some? &&
              PickRepresentativeLeaveType(ActiveTypesOf(other, group)).value.id == ResolveBalanceType(cat, id)
    {
      CreditedIsCandidate(other, group);
      var t :| ActiveIn(cat, group, t);
      assert ActiveIn(other, group, t);
      CandidatesSame(cat, other, group, PickRepresentativeLeaveType(ActiveTypesOf(other, group)).value);
    }
  }

  /** Two full-day types in a group: listed one way to the request and the other way to the rule, the
      request debits a type the rule does not credit. */
  lemma TwoRepresentatives()
    ensures var a, b := LeaveType(1, 1, 100, FullDay, None, true), LeaveType(2, 1, 100, FullDay, None, true);
            && SameTypes([a, b], [b, a])
            && ResolveBalanceType([a, b], 2) == 1
            && PickRepresentativeLeaveType(ActiveTypesOf([b, a], 1)) == Some(b)
  {
    var a, b := LeaveType(1, 1, 100, FullDay, None, true), LeaveType(2, 1, 100, FullDay, None, true);
    var cat, tac := [a, b], [b, a];
    assert cat[1..] == [b] && [b][1..] == [] && tac[1..] == [a] && [a][1..] == [];
    assert OfGroup([b], 1) == [b] && OfGroup(cat, 1) == [a] + [b];
    assert [a] + [b] == cat;
    assert ActiveTypes([b]) == [b];
    assert ActiveTypes(cat) == [a] + [b];
    assert ActiveTypesOf([a], 1) == [a];
    assert ActiveTypesOf(tac, 1) == [b] + [a];
  }
}
