/** What becomes of a line in which flow steps share a stepOrder. */
module ApprovalTies {
  import opened Wrappers
  import opened ApprovalTypes
  import opened StepTable
  import opened ApprovalCursor
  import opened ApprovalTransitions
  import opened ApprovalRefinement
  import opened ApprovalLaws

  type Call = (Operation, Env)

  /** It is the turn of step `j`. */
  predicate IsCurrent(steps: seq<Step>, j: nat) {
    j < |steps| && IsFlow(steps[j].role) && steps[j].status.Pending?
  }

  /** At most one flow step is pending. */
  ghost predicate OneCurrent(d: Doc) {
    forall i, j :: IsCurrent(d.steps, i) && IsCurrent(d.steps, j) ==> i == j
  }

  /** If the document is approved, no flow step is pending. */
  ghost predicate NoneLeftBehind(d: Doc) {
    d.status.DocApproved? ==> forall j :: !IsCurrent(d.steps, j)
  }

  ghost predicate AlwaysOneCurrent(d: Doc) {
    forall calls: seq<Call> :: OneCurrent(Run(d, calls))
  }

  ghost predicate NeverLeftBehind(d: Doc) {
    forall calls: seq<Call> :: NoneLeftBehind(Run(d, calls))
  }

  // ── Without ties ──

  lemma KeptDistinct(s: seq<Step>, t: seq<Step>)
    requires RowsKept(s, t) && DistinctFlowOrders(s)
    ensures DistinctFlowOrders(t)
  {
    forall i, j | 0 <= i < j < |t| && IsFlow(t[i].role) && IsFlow(t[j].role)
      ensures t[i].order != t[j].order
    {
      assert j < |s|;
    }
  }

  ghost predicate Untied(d: Doc) {
    Inv(d) && !d.status.DocDraft? && DistinctFlowOrders(d.steps)
  }

  lemma {:induction false} RunKeepsUntied(d: Doc, calls: seq<Call>)
    requires Untied(d)
    ensures Untied(Run(d, calls))
    decreases |calls|
  {
    if calls != [] {
      var most := calls[..|calls| - 1];
      RunKeepsUntied(d, most);
      var before := Run(d, most);
      var (op, env) := calls[|calls| - 1];
      if Perform(before, op, env).Success? {
        PerformKeepsInv(before, op, env);
        PerformKeepsSides(before, op, env);
        KeptDistinct(before.steps, Perform(before, op, env).value.steps);
      }
    }
  }

  lemma ReadsOneCurrent(steps: seq<Step>, line: seq<nat>, c: Cursor, j: nat)
    requires Reads(steps, line, c) && IsCurrent(steps, j)
    ensures |c.acted| < |line| && line[|c.acted|] == j
  {
    var x :| 0 <= x < |line| && line[x] == j;
    assert x == |c.acted|;
  }

  lemma UntiedOneCurrent(d: Doc)
    requires Untied(d)
    ensures OneCurrent(d) && NoneLeftBehind(d)
  {
    FlowOkReads(d);
    var line, c := FlowLine(d.steps), CursorOf(d);
    forall j | IsCurrent(d.steps, j) ensures |c.acted| < |line| && line[|c.acted|] == j {
      ReadsOneCurrent(d.steps, line, c, j);
    }
  }

  // ── Calls made to show a tie ──

  lemma RunOne(d: Doc, op: Operation, env: Env)
    requires Perform(d, op, env).Success?
    ensures Run(d, [(op, env)]) == Perform(d, op, env).value
  {
    assert [(op, env)][..0] == [];
    assert Run(d, []) == d;
  }

  /** A pending document that no request manages. */
  predicate Open(d: Doc) {
    d.status.DocPending? && !d.managed
  }

  /** Step `i` approved by its assignee. */
  function ApprovedBy(d: Doc, i: nat): Doc
    requires i < |d.steps|
  {
    Progress(d, ApproveMark(d.steps, i, false, d.steps[i].assignee), Earliest(d.steps, NextFilter(i)))
  }

  /** The assignee of a current step can always approve it. */
  lemma AssigneeApproves(d: Doc, i: nat, env: Env) returns (call: Call)
    requires Open(d) && IsCurrent(d.steps, i)
    ensures d.steps[i].role.Approver? ==> call == (OpApprove(i, d.steps[i].assignee), env)
    ensures var d', on := Run(d, [call]), ApprovedBy(d, i);
            d'.steps == on.steps && d'.status == on.status && d'.managed == on.managed
  {
    var step := d.steps[i];
    var op := if step.role.Approver? then OpApprove(i, step.assignee)
              else if step.role.Agreement? then OpAgree(i, step.assignee)
              else OpDeptCollab(i, step.assignee);
    call := (op, env);
    RunOne(d, op, env);
  }

  /** A waiting or returned flow step: a candidate to be activated. */
  predicate IsOpen(s: Step) {
    IsFlow(s.role) && (s.status.Waiting? || s.status.Returned?)
  }

  ghost function OpenRows(steps: seq<Step>): set<nat> {
    set j: nat | j < |steps| && IsOpen(steps[j])
  }

  /** The next candidate `m` becomes current. */
  lemma ApproveActivates(d: Doc, i: nat, m: nat)
    requires IsCurrent(d.steps, i) && Earliest(d.steps, NextFilter(i)) == Some(m)
    ensures m < |d.steps| && m != i && IsOpen(d.steps[m])
    ensures var mark := Act(d.steps[i], Approved, false, d.steps[i].assignee);
            ApprovedBy(d, i) == d.(steps := d.steps[i := mark][m := d.steps[m].(status := Pending)])
    ensures forall j :: 0 <= j < |d.steps| && j != i && IsOpen(d.steps[j]) ==> d.steps[m].order <= d.steps[j].order
    ensures OpenRows(ApprovedBy(d, i).steps) < OpenRows(d.steps)
  {
    assert NextFilter(i)(m, d.steps[m]);
    forall j | 0 <= j < |d.steps| && j != i && IsOpen(d.steps[j]) ensures d.steps[m].order <= d.steps[j].order {
      assert NextFilter(i)(j, d.steps[j]);
    }
    assert m in OpenRows(d.steps) && m !in OpenRows(ApprovedBy(d, i).steps);
  }

  /** With no candidate left the document is approved, and flow rows other than `i` stay. */
  lemma ApproveFinishes(d: Doc, i: nat, p: nat)
    requires IsCurrent(d.steps, i) && IsCurrent(d.steps, p) && p != i
    requires Earliest(d.steps, NextFilter(i)).None?
    ensures ApprovedBy(d, i).status.DocApproved? && IsCurrent(ApprovedBy(d, i).steps, p)
  {
  }

  /** Of two current steps one can be left behind: approve everything else. */
  lemma {:induction false} LeaveBehind(d: Doc, p: nat, m: nat, env: Env) returns (calls: seq<Call>)
    requires Open(d) && IsCurrent(d.steps, p) && IsCurrent(d.steps, m) && p != m
    ensures Run(d, calls).status.DocApproved? && IsCurrent(Run(d, calls).steps, p)
    decreases OpenRows(d.steps)
  {
    var call := AssigneeApproves(d, m, env);
    var d' := Run(d, [call]);
    match Earliest(d.steps, NextFilter(m))
    case None =>
      ApproveFinishes(d, m, p);
      calls := [call];
    case Some(q) =>
      ApproveActivates(d, m, q);
      var more := LeaveBehind(d', p, q, env);
      RunOn(d, [call], more);
      calls := [call] + more;
  }

  /** It is the turn of `p` alone: flow rows before it are approved, the others wait. */
  ghost predicate Reached(steps: seq<Step>, p: nat) {
    && IsCurrent(steps, p)
    && (forall j :: 0 <= j < |steps| && j != p && IsFlow(steps[j].role) && steps[j].order < steps[p].order ==>
          steps[j].status.Approved?)
    && (forall j :: 0 <= j < |steps| && j != p && IsFlow(steps[j].role) && steps[j].order >= steps[p].order ==>
          steps[j].status.Waiting?)
  }

  predicate Tied(steps: seq<Step>, i: nat, j: nat) {
    i < |steps| && j < |steps| && i != j && IsFlow(steps[i].role) && IsFlow(steps[j].role) &&
    steps[i].order == steps[j].order
  }

  /** The tie is at the current step: approving it and taking the approval back makes two steps current,
      because neither guard nor put-back looks at steps of equal stepOrder. */
  lemma CancelDoubles(d: Doc, p: nat, t: nat, env: Env) returns (calls: seq<Call>, m: nat)
    requires Open(d) && Reached(d.steps, p) && Tied(d.steps, p, t)
    ensures Open(Run(d, calls)) && p != m
    ensures IsCurrent(Run(d, calls).steps, p) && IsCurrent(Run(d, calls).steps, m)
  {
    var call := AssigneeApproves(d, p, env);
    var d1 := Run(d, [call]);
    assert t != p && IsFlow(d.steps[t].role) && d.steps[t].status.Waiting?;
    assert NextFilter(p)(t, d.steps[t]);
    m := Earliest(d.steps, NextFilter(p)).value;
    ApproveActivates(d, p, m);
    assert d.steps[m].order == d.steps[p].order;
    var cancel := CancelTied(d1, p, m);
    RunOne(d1, cancel, env);
    RunOn(d, [call], [(cancel, env)]);
    calls := [call] + [(cancel, env)];
  }

  lemma CancelTied(d: Doc, p: nat, m: nat) returns (op: Operation)
    requires Open(d) && IsCurrent(d.steps, m) && p < |d.steps| && d.steps[p].status.Approved?
    requires IsFlow(d.steps[p].role) && d.steps[m].order == d.steps[p].order
    requires forall j :: 0 <= j < |d.steps| && IsFlow(d.steps[j].role) && d.steps[j].order > d.steps[p].order ==>
               d.steps[j].status.Waiting?
    ensures forall env :: Perform(d, op, env).Success?
    ensures forall env :: var d' := Perform(d, op, env).value;
              Open(d') && IsCurrent(d'.steps, p) && IsCurrent(d'.steps, m)
  {
    op := OpCancelApproval(p, d.steps[p].assignee);
    var order := d.steps[p].order;
    assert Earliest(d.steps, ActedLaterFilter(order)).None?;
    assert Earliest(d.steps, PendingLaterFilter(order)).None?;
  }

  /** Without a tie at the current step its approval makes the next one current. */
  lemma ApproveReaches(d: Doc, p: nat, m: nat)
    requires Reached(d.steps, p) && Earliest(d.steps, NextFilter(p)) == Some(m)
    requires forall t :: !Tied(d.steps, p, t)
    ensures Reached(ApprovedBy(d, p).steps, m)
  {
    ApproveActivates(d, p, m);
    forall j | 0 <= j < |d.steps| && j != p && IsFlow(d.steps[j].role)
      ensures d.steps[j].order != d.steps[p].order
    {
      assert !Tied(d.steps, p, j);
    }
  }

  /** A tie at or after the current step can be brought to two current steps. */
  lemma {:induction false} ReachTie(d: Doc, p: nat, i: nat, j: nat, env: Env)
    returns (calls: seq<Call>, a: nat, b: nat)
    requires Open(d) && Reached(d.steps, p) && Tied(d.steps, i, j)
    requires d.steps[i].order >= d.steps[p].order
    ensures Open(Run(d, calls)) && a != b
    ensures IsCurrent(Run(d, calls).steps, a) && IsCurrent(Run(d, calls).steps, b)
    decreases OpenRows(d.steps)
  {
    if t :| Tied(d.steps, p, t) {
      a := p;
      calls, b := CancelDoubles(d, p, t, env);
    } else {
      assert !Tied(d.steps, p, j) && !Tied(d.steps, p, i);
      assert NextFilter(p)(i, d.steps[i]) && NextFilter(p)(j, d.steps[j]);
      var m := Earliest(d.steps, NextFilter(p)).value;
      ApproveActivates(d, p, m);
      ApproveReaches(d, p, m);
      var call := AssigneeApproves(d, p, env);
      var more;
      more, a, b := ReachTie(Run(d, [call]), m, i, j, env);
      RunOn(d, [call], more);
      calls := [call] + more;
    }
  }

  // ── From the submitted line ──

  predicate TiedFlow(s: StepInput, t: StepInput) {
    IsFlow(s.role) && IsFlow(t.role) && s.order == t.order
  }

  predicate HasEarlierFlow(line: seq<StepInput>, i: nat)
    requires i < |line|
  {
    exists h :: 0 <= h < |line| && IsFlow(line[h].role) && line[h].order < line[i].order
  }

  /** The rows right after submission: the steps of least stepOrder are pending, the others wait. */
  lemma SubmittedRows(d: Doc, line: seq<StepInput>, user: Id) returns (p: nat)
    requires Submit(d, line, user).Success?
    ensures var on := Submit(d, line, user).value;
            && Open(on) && IsCurrent(on.steps, p)
            && forall j :: 0 <= j < |on.steps| && IsFlow(on.steps[j].role) ==>
                 && on.steps[p].order <= on.steps[j].order
                 && on.steps[j].status == (if on.steps[j].order == on.steps[p].order then Pending else Waiting)
  {
    var drafts := DraftRows(line);
    var f :| 0 <= f < |line| && IsFlow(line[f].role);
    assert FlowFilter()(f, drafts[f]);
    p := Earliest(drafts, FlowFilter()).value;
    forall j | 0 <= j < |drafts| && IsFlow(drafts[j].role) ensures drafts[p].order <= drafts[j].order {
      assert FlowFilter()(j, drafts[j]);
    }
  }

  /** Right after submission at most one flow step is pending iff no other flow step shares the least
      stepOrder. */
  lemma OnePendingIffNoTie(d: Doc, line: seq<StepInput>, user: Id)
    requires Submit(d, line, user).Success?
    ensures OneCurrent(Submit(d, line, user).value) <==>
            forall i, j :: 0 <= i < j < |line| && TiedFlow(line[i], line[j]) ==> HasEarlierFlow(line, i)
  {
    var on := Submit(d, line, user).value;
    var p := SubmittedRows(d, line, user);
    forall i | 0 <= i < |line| && IsFlow(line[i].role)
      ensures IsCurrent(on.steps, i) <==> !HasEarlierFlow(line, i)
    {
      assert line[p].order == on.steps[p].order;
      if HasEarlierFlow(line, i) {
        var h :| 0 <= h < |line| && IsFlow(line[h].role) && line[h].order < line[i].order;
        assert IsFlow(on.steps[h].role);
      }
    }
  }

  /** Two flow steps of the line share a stepOrder: some calls make two steps current. */
  lemma TieDoubles(d: Doc, line: seq<StepInput>, user: Id, i: nat, j: nat, env: Env)
    returns (calls: seq<Call>, a: nat, b: nat)
    requires Submit(d, line, user).Success? && Tied(Submit(d, line, user).value.steps, i, j)
    ensures var d' := Run(Submit(d, line, user).value, calls);
            Open(d') && a != b && IsCurrent(d'.steps, a) && IsCurrent(d'.steps, b)
  {
    var on := Submit(d, line, user).value;
    var p := SubmittedRows(d, line, user);
    if t :| Tied(on.steps, p, t) {
      calls, a, b := [], p, t;
    } else {
      forall t | 0 <= t < |on.steps| && t != p && IsFlow(on.steps[t].role)
        ensures on.steps[t].order > on.steps[p].order
      {
        assert !Tied(on.steps, p, t);
      }
      calls, a, b := ReachTie(on, p, i, j, env);
    }
  }

  /** No two flow steps of the line share a stepOrder. */
  ghost predicate TieFree(line: seq<StepInput>) {
    forall i, j :: 0 <= i < j < |line| ==> !TiedFlow(line[i], line[j])
  }

  /** The line decides: whatever is called after submission at most one flow step is pending, and an
      approved document has none, iff no two flow steps of the line share a stepOrder. */
  lemma OneCurrentIffTieFree(d: Doc, line: seq<StepInput>, user: Id)
    requires Inv(d) && Submit(d, line, user).Success?
    ensures AlwaysOneCurrent(Submit(d, line, user).value) <==> TieFree(line)
    ensures NeverLeftBehind(Submit(d, line, user).value) <==> TieFree(line)
  {
    var on := Submit(d, line, user).value;
    if TieFree(line) {
      assert forall i, j :: 0 <= i < j < |on.steps| && on.steps[i].order == on.steps[j].order ==>
        !TiedFlow(line[i], line[j]);
      PerformKeepsInv(d, OpSubmit(line, user), Env({}, [], 0, false));
      forall calls: seq<Call> ensures OneCurrent(Run(on, calls)) && NoneLeftBehind(Run(on, calls)) {
        RunKeepsUntied(on, calls);
        UntiedOneCurrent(Run(on, calls));
      }
    } else {
      var i, j :| 0 <= i < j < |line| && TiedFlow(line[i], line[j]);
      var env := Env({}, [], 0, false);
      assert Tied(on.steps, i, j);
      var calls, a, b := TieDoubles(d, line, user, i, j, env);
      assert !OneCurrent(Run(on, calls));
      var more := LeaveBehind(Run(on, calls), a, b, env);
      RunOn(on, calls, more);
      assert !NoneLeftBehind(Run(on, calls + more));
    }
  }

  /** Two approvers tied at the first stepOrder are both pending after submission. */
  lemma TiedFirstSteps()
    ensures var line := [StepInput(Approver, 1, None, 0), StepInput(Approver, 2, None, 0),
                         StepInput(Approver, 3, None, 1)];
            var submitted := Submit(CreateDraft(9, false, []), line, 9);
            && submitted.Success?
            && submitted.value.steps[0].status.Pending? && submitted.value.steps[1].status.Pending?
  {
    var line := [StepInput(Approver, 1, None, 0), StepInput(Approver, 2, None, 0),
                 StepInput(Approver, 3, None, 1)];
    assert IsFlow(line[0].role);
    var drafts := DraftRows(line);
    assert FlowFilter()(0, drafts[0]);
  }

  // ── A run that ends approved with a pending step ──

  const NOBODY := Env({}, [], 0, false)

  /** The three steps of the line 1, 2, 3 with stepOrders 0, 1, 1. */
  function Three(a: StepStatus, b: StepStatus, c: StepStatus): seq<Step> {
    [Step(Approver, 1, None, 0, a, false, None), Step(Approver, 2, None, 1, b, false, None),
     Step(Approver, 3, None, 1, c, false, None)]
  }

  lemma FirstActivates(d: Doc)
    requires Open(d) && d.steps == Three(Pending, Waiting, Waiting)
    ensures var d' := Run(d, [(OpApprove(0, 1), NOBODY)]);
            Open(d') && d'.steps == Three(Approved, Pending, Waiting)
  {
    var call := AssigneeApproves(d, 0, NOBODY);
    var i: nat, j: nat := 0, 1;
    assert j != i && IsFlow(d.steps[j].role) && d.steps[j].status.Waiting?;
    assert NextFilter(i)(j, d.steps[j]);
    assert Earliest(d.steps, NextFilter(i)) == Some(j);
  }

  lemma SecondActivates(d: Doc)
    requires Open(d) && d.steps == Three(Approved, Pending, Waiting)
    ensures var d' := Run(d, [(OpApprove(1, 2), NOBODY)]);
            Open(d') && d'.steps == Three(Approved, Approved, Pending)
  {
    var call := AssigneeApproves(d, 1, NOBODY);
    var i: nat, j: nat := 1, 2;
    assert j != i && IsFlow(d.steps[j].role) && d.steps[j].status.Waiting?;
    assert NextFilter(i)(j, d.steps[j]);
    assert Earliest(d.steps, NextFilter(i)) == Some(j);
  }

  lemma ThirdFinishes(d: Doc)
    requires Open(d) && d.steps == Three(Approved, Pending, Pending)
    ensures var d' := Run(d, [(OpApprove(2, 3), NOBODY)]);
            d'.status.DocApproved? && d'.steps == Three(Approved, Pending, Approved)
  {
    var call := AssigneeApproves(d, 2, NOBODY);
    assert Earliest(d.steps, NextFilter(2)).None?;
  }

  /** Approver 2 takes the approval back: no later step is pending, so only step 1 changes. */
  lemma TakesBack(d: Doc)
    requires Open(d) && d.steps == Three(Approved, Approved, Pending)
    ensures var d' := Run(d, [(OpCancelApproval(1, 2), NOBODY)]);
            Open(d') && d'.steps == Three(Approved, Pending, Pending)
  {
    assert Earliest(d.steps, ActedLaterFilter(1)).None? && Earliest(d.steps, PendingLaterFilter(1)).None?;
    RunOne(d, OpCancelApproval(1, 2), NOBODY);
  }

  lemma RunFour(d: Doc, a: Call, b: Call, c: Call, e: Call)
    ensures Run(d, [a, b, c, e]) == Run(Run(Run(Run(d, [a]), [b]), [c]), [e])
  {
    RunOn(d, [a], [b]);
    RunOn(d, [a] + [b], [c]);
    RunOn(d, [a] + [b] + [c], [e]);
    assert [a] + [b] + [c] + [e] == [a, b, c, e];
  }

  lemma RunThree(d: Doc)
    requires Open(d) && d.steps == Three(Pending, Waiting, Waiting)
    ensures var d' := Run(d, [(OpApprove(0, 1), NOBODY), (OpApprove(1, 2), NOBODY),
                              (OpCancelApproval(1, 2), NOBODY), (OpApprove(2, 3), NOBODY)]);
            d'.status.DocApproved? && d'.steps == Three(Approved, Pending, Approved)
  {
    FirstActivates(d);
    var d1 := Run(d, [(OpApprove(0, 1), NOBODY)]);
    SecondActivates(d1);
    var d2 := Run(d1, [(OpApprove(1, 2), NOBODY)]);
    TakesBack(d2);
    var d3 := Run(d2, [(OpCancelApproval(1, 2), NOBODY)]);
    ThirdFinishes(d3);
    RunFour(d, (OpApprove(0, 1), NOBODY), (OpApprove(1, 2), NOBODY),
            (OpCancelApproval(1, 2), NOBODY), (OpApprove(2, 3), NOBODY));
  }

  /** Approvers 1, 2, 3 with stepOrders 0, 1, 1: the first two approve, the second takes the approval
      back, the third approves, and the document is approved while the second step is pending. */
  lemma ApprovedOverPendingStep()
    ensures var line := [StepInput(Approver, 1, None, 0), StepInput(Approver, 2, None, 1),
                         StepInput(Approver, 3, None, 1)];
            var submitted := Submit(CreateDraft(9, false, []), line, 9);
            && submitted.Success?
            && var d := Run(submitted.value, [(OpApprove(0, 1), NOBODY), (OpApprove(1, 2), NOBODY),
                                              (OpCancelApproval(1, 2), NOBODY), (OpApprove(2, 3), NOBODY)]);
               d.status.DocApproved? && d.steps == Three(Approved, Pending, Approved)
  {
    var line := [StepInput(Approver, 1, None, 0), StepInput(Approver, 2, None, 1),
                 StepInput(Approver, 3, None, 1)];
    assert IsFlow(line[0].role);
    var d := Submit(CreateDraft(9, false, []), line, 9).value;
    var p := SubmittedRows(CreateDraft(9, false, []), line, 9);
    assert d.steps[0].order == 0;
    assert d.steps == Three(Pending, Waiting, Waiting);
    RunThree(d);
  }
}
