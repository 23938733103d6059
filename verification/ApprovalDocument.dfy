/**
 * The stored document and the service methods that update it in place. Each method is proved to
 * change the document exactly as the corresponding transition does, and to keep the invariant.
 */
module ApprovalDocument {
  import opened Wrappers
  import opened ApprovalTypes
  import opened StepTable
  import opened ApprovalTransitions
  import opened ApprovalRefinement

  /** filter + ascending sort by stepOrder + [0]. */
  method FindEarliest(steps: seq<Step>, p: StepFilter) returns (r: Option<nat>)
    ensures r == Earliest(steps, p)
  {
    r := None;
    for j := 0 to |steps|
      invariant r == Earliest(steps[..j], p)
    {
      assert steps[..j + 1][..j] == steps[..j];
      if p(j, steps[j]) && (r.None? || steps[j].order < steps[r.value].order) {
        r := Some(j);
      }
    }
    assert steps[..|steps|] == steps;
  }

  /** filter + descending sort by stepOrder + [0]. */
  method FindLatest(steps: seq<Step>, p: StepFilter) returns (r: Option<nat>)
    ensures r == Latest(steps, p)
  {
    r := None;
    for j := 0 to |steps|
      invariant r == Latest(steps[..j], p)
    {
      assert steps[..j + 1][..j] == steps[..j];
      if p(j, steps[j]) && (r.None? || steps[j].order > steps[r.value].order) {
        r := Some(j);
      }
    }
    assert steps[..|steps|] == steps;
  }

  class Document {
    const managed: bool
    const drafter: Id
    const allowPreApproval: bool
    var status: DocStatus
    var steps: seq<Step>
    var history: seq<Entry>

    ghost function View(): Doc
      reads this
    {
      Doc(status, managed, drafter, allowPreApproval, steps, history)
    }

    ghost predicate Valid()
      reads this
    {
      Inv(View())
    }

    /** The outcome of a call that is specified by the transition result `spec`. */
    ghost predicate Answers(was: Doc, spec: Answer, r: Outcome<ApprovalError>)
      reads this
    {
      match spec
      case Success(d) => r.Pass? && View() == d
      case Failure(e) => r == Fail(e) && View() == was
    }

    constructor Create(drafter: Id, allowPreApproval: bool, line: seq<StepInput>)
      ensures Valid() && View() == CreateDraft(drafter, allowPreApproval, line)
    {
      this.managed := false;
      this.drafter := drafter;
      this.allowPreApproval := allowPreApproval;
      status := DocDraft;
      steps := DraftRows(line);
      history := [];
    }

    // ── Row statements ──

    method UpdateStep(i: nat, row: Step)
      requires i < |steps|
      modifies this`steps
      ensures steps == old(steps)[i := row]
    {
      steps := steps[i := row];
    }

    method UpdateRows(p: StepFilter, to: StepStatus)
      modifies this`steps
      ensures steps == UpdateMany(old(steps), p, to)
    {
      ghost var was := steps;
      for j := 0 to |steps|
        invariant |steps| == |was|
        invariant forall h :: 0 <= h < j ==>
          steps[h] == if p(h, was[h]) then was[h].(status := to) else was[h]
        invariant forall h :: j <= h < |was| ==> steps[h] == was[h]
      {
        if p(j, steps[j]) {
          steps := steps[j := steps[j].(status := to)];
        }
      }
    }

    method AppendHistory(step: Option<nat>, actor: Id, action: HistoryAction)
      modifies this`history
      ensures history == old(history) + [Entry(step, actor, action)]
    {
      history := history + [Entry(step, actor, action)];
    }

    /** The loading and status guards of an action on a pending flow step. */
    method Guard(i: nat, roles: set<Role>) returns (r: Result<Step, ApprovalError>)
      ensures r == Admit(View(), i, roles)
    {
      if managed { return Failure(DocumentManagedByRequest); }
      if i >= |steps| { return Failure(StepNotFound); }
      if !status.DocPending? { return Failure(DocumentNotPending); }
      if steps[i].role !in roles { return Failure(StepRoleMismatch); }
      if !steps[i].status.Pending? { return Failure(StepNotCurrent); }
      return Success(steps[i]);
    }

    // ── Approval ──

    method FinalizeApproval()
      modifies this`steps, this`status
      ensures steps == Finalize(old(steps)) && status == DocApproved
    {
      UpdateRows(ReceiverFilter(), Pending);
      status := DocApproved;
    }

    method ProgressFlow(loaded: seq<Step>, i: nat)
      requires |loaded| == |steps|
      modifies this`steps, this`status
      ensures var next := Earliest(loaded, NextFilter(i));
              View() == Progress(old(View()).(steps := loaded), old(steps), next)
    {
      var next := FindEarliest(loaded, NextFilter(i));
      match next {
        case Some(m) => UpdateStep(m, steps[m].(status := Pending));
        case None => FinalizeApproval();
      }
    }

    method Approve(i: nat, actor: Id, env: Env, expected: Role) returns (r: Outcome<ApprovalError>)
      modifies this
      ensures Answers(old(View()), ApproveFlowStep(old(View()), i, actor, env, expected), r)
    {
      var admitted := Guard(i, {expected});
      if admitted.Failure? { return Fail(admitted.error); }
      var resolved := ResolveActor(admitted.value, actor, env);
      if resolved.Failure? { return Fail(resolved.error); }
      var loaded := steps;
      UpdateStep(i, Act(steps[i], if resolved.value then ProxyApproved else Approved, resolved.value, actor));
      ProgressFlow(loaded, i);
      AppendHistory(Some(i), actor, ApprovalAction(expected, resolved.value));
      r := Pass;
    }

    method Reject(i: nat, actor: Id, env: Env) returns (r: Outcome<ApprovalError>)
      modifies this
      ensures Answers(old(View()), RejectStep(old(View()), i, actor, env), r)
    {
      var admitted := Guard(i, FLOW_ROLES);
      if admitted.Failure? { return Fail(admitted.error); }
      var resolved := ResolveActor(admitted.value, actor, env);
      if resolved.Failure? { return Fail(resolved.error); }
      UpdateStep(i, Act(admitted.value, Rejected, resolved.value, actor));
      UpdateRows(RemainingFilter(i), Cancelled);
      status := DocRejected;
      AppendHistory(Some(i), actor, DidReject);
      r := Pass;
    }

    method PreApprove(i: nat, actor: Id, env: Env) returns (r: Outcome<ApprovalError>)
      modifies this
      ensures Answers(old(View()), PreApproveStep(old(View()), i, actor, env), r)
    {
      var admitted := Guard(i, {Approver});
      if admitted.Failure? { return Fail(admitted.error); }
      if !allowPreApproval { return Fail(DocumentPreApprovalNotAllowed); }
      var resolved := ResolveActor(admitted.value, actor, env);
      if resolved.Failure? { return Fail(resolved.error); }
      UpdateStep(i, Act(admitted.value, PreApproved, resolved.value, actor));
      UpdateRows(SkipFilter(), Skipped);
      FinalizeApproval();
      AppendHistory(Some(i), actor, DidPreApprove);
      r := Pass;
    }

    // ── Backwards moves ──

    method ReturnToPreviousStep(i: nat, actor: Id, env: Env) returns (r: Outcome<ApprovalError>)
      modifies this
      ensures Answers(old(View()), ReturnToPrevious(old(View()), i, actor, env), r)
    {
      var admitted := Guard(i, FLOW_ROLES);
      if admitted.Failure? { return Fail(admitted.error); }
      var resolved := ResolveActor(admitted.value, actor, env);
      if resolved.Failure? { return Fail(resolved.error); }
      if !env.prevRejectEnabled { return Fail(PrevRejectDisabled); }
      var previous := FindLatest(steps, PreviousFilter(admitted.value.order));
      if previous.None? { return Fail(StepNoPrevious); }
      UpdateStep(i, steps[i].(status := Returned));
      UpdateStep(previous.value, Reopen(steps[previous.value]));
      AppendHistory(Some(i), actor, DidReturnPrev);
      r := Pass;
    }

    method Cancel(i: nat, actor: Id) returns (r: Outcome<ApprovalError>)
      modifies this
      ensures Answers(old(View()), CancelApproval(old(View()), i, actor), r)
    {
      if managed { return Fail(DocumentManagedByRequest); }
      if i >= |steps| { return Fail(StepNotFound); }
      var step := steps[i];
      if !status.DocPending? { return Fail(DocumentCannotCancel); }
      if !step.status.Approved? && !step.status.ProxyApproved? { return Fail(StepNotCurrent); }
      if !IsOwnAction(step, actor) { return Fail(StepNotAssignee); }
      var acted := FindEarliest(steps, ActedLaterFilter(step.order));
      if acted.Some? { return Fail(DocumentCannotCancel); }
      var pending := FindEarliest(steps, PendingLaterFilter(step.order));
      UpdateStep(i, Reopen(step));
      if pending.Some? {
        UpdateStep(pending.value, steps[pending.value].(status := Waiting));
      }
      AppendHistory(Some(i), actor, DidCancelApproval);
      r := Pass;
    }

    // ── Side steps ──

    method MarkViewed(i: nat, actor: Id, env: Env) returns (r: Outcome<ApprovalError>)
      modifies this
      ensures Answers(old(View()), ViewStep(old(View()), i, actor, env), r)
    {
      if managed { return Fail(DocumentManagedByRequest); }
      if i >= |steps| { return Fail(StepNotFound); }
      var step := steps[i];
      if !step.role.Reference? && !step.role.Viewer? { return Fail(StepRoleMismatch); }
      if !step.status.Pending? { return Fail(StepNotCurrent); }
      var resolved := ResolveActor(step, actor, env);
      if resolved.Failure? { return Fail(resolved.error); }
      UpdateStep(i, Act(step, Viewed, resolved.value, actor));
      AppendHistory(Some(i), actor, DidView);
      r := Pass;
    }

    /** Receive, or bounce back to the drafter. */
    method ReceiveOrBounce(i: nat, actor: Id, env: Env, bounce: bool) returns (r: Outcome<ApprovalError>)
      modifies this
      ensures Answers(old(View()),
                      if bounce then BounceStep(old(View()), i, actor, env)
                      else ReceiveStep(old(View()), i, actor, env), r)
    {
      if managed { return Fail(DocumentManagedByRequest); }
      if i >= |steps| { return Fail(StepNotFound); }
      var step := steps[i];
      if bounce && !step.role.DeptReceiver? { return Fail(StepRoleMismatch); }
      if !IsReceiver(step.role) { return Fail(StepRoleMismatch); }
      if !status.DocApproved? { return Fail(DocumentNotApproved); }
      if !step.status.Pending? { return Fail(StepNotCurrent); }
      var resolved := ResolveActor(step, actor, env);
      if resolved.Failure? { return Fail(resolved.error); }
      UpdateStep(i, Act(step, if bounce then Bounced else Received, resolved.value, actor));
      AppendHistory(Some(i), actor, if bounce then DidBounce else DidReceive);
      r := Pass;
    }

    // ── Submission and recall ──

    /** Rewrite the rows, the first flow step pending. */
    method CreateLine(line: seq<StepInput>)
      modifies this`steps
      ensures steps == SubmitRows(line)
    {
      steps := DraftRows(line);
      var first := FindEarliest(steps, FlowFilter());
      var firstFlowOrder := if first.Some? then Some(steps[first.value].order) else None;
      ghost var drafts := steps;
      for j := 0 to |steps|
        invariant |steps| == |drafts|
        invariant forall h :: 0 <= h < j ==>
          steps[h] == drafts[h].(status := InitialStatus(drafts[h].role, drafts[h].order, firstFlowOrder))
        invariant forall h :: j <= h < |drafts| ==> steps[h] == drafts[h]
      {
        steps := steps[j := steps[j].(status := InitialStatus(steps[j].role, steps[j].order, firstFlowOrder))];
      }
    }

    method SubmitLine(line: seq<StepInput>, user: Id) returns (r: Outcome<ApprovalError>)
      modifies this
      ensures Answers(old(View()), Submit(old(View()), line, user), r)
    {
      if managed { return Fail(DocumentManagedByRequest); }
      if drafter != user { return Fail(DocumentNotDrafter); }
      if !status.DocDraft? { return Fail(DocumentAlreadySubmitted); }
      if !exists j :: 0 <= j < |line| && IsFlow(line[j].role) { return Fail(ApprovalLineEmpty); }
      if exists j :: 0 <= j < |line| && line[j].role.Approver? && line[j].assignee == drafter {
        return Fail(ApprovalSelfNotAllowed);
      }
      CreateLine(line);
      status := DocPending;
      AppendHistory(None, user, DidSubmit);
      r := Pass;
    }

    method RecallDocument(user: Id) returns (r: Outcome<ApprovalError>)
      modifies this
      ensures Answers(old(View()), Recall(old(View()), user), r)
    {
      if managed { return Fail(DocumentManagedByRequest); }
      if drafter != user { return Fail(DocumentNotDrafter); }
      if !status.DocPending? { return Fail(DocumentCannotRecall); }
      if exists j :: 0 <= j < |steps| && IsActed(steps[j].status) { return Fail(DocumentCannotRecall); }
      status := DocRecalled;
      AppendHistory(None, user, DidRecall);
      r := Pass;
    }

    method AppendCcs(added: seq<CcInput>)
      modifies this`steps
      ensures steps == old(steps) + CcRows(added, MaxOrder(old(steps)))
    {
      var maxOrder := MaxOrder(steps);
      for k := 0 to |added|
        invariant steps == old(steps) + CcRows(added, maxOrder)[..k]
      {
        steps := steps + [CcRow(added[k], maxOrder + k + 1)];
      }
    }

    method AddCc(ccs: seq<CcInput>, user: Id) returns (r: Outcome<ApprovalError>)
      modifies this
      ensures Answers(old(View()), AddCcSteps(old(View()), ccs, user), r)
    {
      if managed { return Fail(DocumentManagedByRequest); }
      if !status.DocPending? && !status.DocApproved? { return Fail(DocumentCcNotAllowed); }
      if drafter != user && !TakesPart(steps, user) { return Fail(DocumentCcForbidden); }
      if steps == [] { return Fail(DocumentNoApprovalLine); }
      var added := FreshCcs(steps, ccs);
      if added == [] { return Fail(DocumentCcDuplicate); }
      AppendCcs(added);
      r := Pass;
    }

    method Opinion(user: Id, isAdmin: bool) returns (r: Outcome<ApprovalError>)
      modifies this
      ensures Answers(old(View()), AddOpinion(old(View()), user, isAdmin), r)
    {
      if status.DocDraft? { return Fail(DocumentOpinionNotAllowed); }
      if !isAdmin && drafter != user &&
         !exists j :: 0 <= j < |steps| && (steps[j].assignee == user || steps[j].proxyId == Some(user)) {
        return Fail(DocumentAccessForbidden);
      }
      AppendHistory(None, user, DidOpinion);
      r := Pass;
    }

    method SaveDraft(line: Option<seq<StepInput>>, user: Id) returns (r: Outcome<ApprovalError>)
      modifies this
      ensures Answers(old(View()), UpdateDraft(old(View()), line, user), r)
    {
      if managed { return Fail(DocumentManagedByRequest); }
      if drafter != user { return Fail(DocumentNotDrafter); }
      if !status.DocDraft? { return Fail(DocumentAlreadySubmitted); }
      if line.Some? {
        steps := DraftRows(line.value);
      }
      r := Pass;
    }

    /** Any call: it does what the transition says and keeps the invariant. */
    method Handle(op: Operation, env: Env) returns (r: Outcome<ApprovalError>)
      requires Valid()
      modifies this
      ensures Answers(old(View()), Perform(old(View()), op, env), r)
      ensures Valid()
    {
      ghost var was := View();
      match op {
        case OpUpdate(line, user) => r := SaveDraft(line, user);
        case OpSubmit(line, user) => r := SubmitLine(line, user);
        case OpRecall(user) => r := RecallDocument(user);
        case OpApprove(i, user) => r := Approve(i, user, env, Approver);
        case OpAgree(i, user) => r := Approve(i, user, env, Agreement);
        case OpDeptCollab(i, user) => r := Approve(i, user, env, DeptCollaborator);
        case OpReject(i, user) => r := Reject(i, user, env);
        case OpPreApprove(i, user) => r := PreApprove(i, user, env);
        case OpReturnToPrevious(i, user) => r := ReturnToPreviousStep(i, user, env);
        case OpCancelApproval(i, user) => r := Cancel(i, user);
        case OpView(i, user) => r := MarkViewed(i, user, env);
        case OpReceive(i, user) => r := ReceiveOrBounce(i, user, env, false);
        case OpBounce(i, user) => r := ReceiveOrBounce(i, user, env, true);
        case OpAddCc(ccs, user) => r := AddCc(ccs, user);
        case OpAddOpinion(user, isAdmin) => r := Opinion(user, isAdmin);
      }
      if r.Pass? {
        PerformKeepsInv(was, op, env);
      }
    }
  }
}
