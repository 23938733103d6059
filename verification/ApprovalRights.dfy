/** Who may make each call on a document, and what the call leaves on the rows and in the history. */
module ApprovalRights {
  import opened Wrappers
  import opened ApprovalTypes
  import opened StepTable
  import opened ApprovalTransitions
  import opened ApprovalRefinement
  import opened ApprovalLaws

  // ── Acting on a step ──

  /** Acting for the assignee: neither assignee nor document manager, and the newest active setting of the
      two covers today. */
  ghost predicate ByProxy(step: Step, actor: Id, env: Env) {
    && step.assignee != actor && !ActsAsManager(step, actor, env)
    && exists k: nat :: Newest(env.proxies, step.assignee, actor, k) && Covers(env.proxies[k], env.today)
  }

  ghost predicate MayAct(step: Step, actor: Id, env: Env) {
    step.assignee == actor || ActsAsManager(step, actor, env) || ByProxy(step, actor, env)
  }

  lemma ActorIff(step: Step, actor: Id, env: Env)
    ensures ResolveActor(step, actor, env).Success? <==> MayAct(step, actor, env)
    ensures ResolveActor(step, actor, env).Success? ==>
              (ResolveActor(step, actor, env).value <==> ByProxy(step, actor, env))
  {
    if step.assignee != actor && !ActsAsManager(step, actor, env) {
      ProxyActsIff(step, actor, env);
    }
  }

  predicate IsStepOp(op: Operation) {
    IsApprovalOp(op) || op.OpReject? || op.OpPreApprove? || op.OpReturnToPrevious? || op.OpView? || op.OpReceive? || op.OpBounce?
  }

  /** Step `i` is a pending one of these roles. */
  predicate Waits(d: Doc, i: nat, roles: set<Role>) {
    !d.managed && i < |d.steps| && d.steps[i].status.Pending? && d.steps[i].role in roles
  }

  const FLOW: set<Role> := {Approver, Agreement, DeptCollaborator}

  /** Some flow step of smaller stepOrder is approved. */
  predicate HasApprovedBefore(d: Doc, i: nat)
    requires i < |d.steps|
  {
    exists j :: 0 <= j < |d.steps| && IsFlow(d.steps[j].role) && d.steps[j].order < d.steps[i].order &&
      ApprovedStatus(d.steps[j].status)
  }

  /** What a call on a step asks for besides the right actor. */
  predicate Ready(d: Doc, op: Operation, env: Env)
    requires IsStepOp(op)
  {
    match op
    case OpApprove(i, _) => Waits(d, i, {Approver}) && d.status.DocPending?
    case OpAgree(i, _) => Waits(d, i, {Agreement}) && d.status.DocPending?
    case OpDeptCollab(i, _) => Waits(d, i, {DeptCollaborator}) && d.status.DocPending?
    case OpReject(i, _) => Waits(d, i, FLOW) && d.status.DocPending?
    case OpPreApprove(i, _) => Waits(d, i, {Approver}) && d.status.DocPending? && d.allowPreApproval
    case OpReturnToPrevious(i, _) =>
      Waits(d, i, FLOW) && d.status.DocPending? && env.prevRejectEnabled && HasApprovedBefore(d, i)
    case OpView(i, _) => Waits(d, i, {Reference, Viewer})
    case OpReceive(i, _) => Waits(d, i, {Receiver, DeptReceiver}) && d.status.DocApproved?
    case OpBounce(i, _) => Waits(d, i, {DeptReceiver}) && d.status.DocApproved?
  }

  /** A row changes at most its status. */
  predicate KeepsMarks(s: Step, t: Step) {
    t == s.(status := t.status)
  }

  /** A row with a status, and the actor's mark if a proxy acted. */
  predicate Marked(s: Step, t: Step, status: StepStatus, proxy: bool, actor: Id) {
    && t.status == status && (t.isProxy <==> proxy) && t.proxyId == (if proxy then Some(actor) else None)
    && t.role == s.role && t.assignee == s.assignee && t.org == s.org && t.order == s.order
  }

  /** The call is logged under its step and actor; on other rows at most the status changes. */
  ghost predicate Leaves(d: Doc, d': Doc, i: nat, actor: Id, action: HistoryAction) {
    && i < |d.steps| && |d'.steps| == |d.steps|
    && d'.history == d.history + [Entry(Some(i), actor, action)]
    && (forall j :: 0 <= j < |d.steps| && j != i ==> KeepsMarks(d.steps[j], d'.steps[j]))
  }

  /** Marking step `i` and going on leaves its mark and no other. */
  lemma ProgressLeaves(d: Doc, i: nat, proxy: bool, actor: Id)
    requires i < |d.steps|
    ensures var rows := Progress(d, ApproveMark(d.steps, i, proxy, actor), Earliest(d.steps, NextFilter(i))).steps;
            && |rows| == |d.steps|
            && Marked(d.steps[i], rows[i], if proxy then ProxyApproved else Approved, proxy, actor)
            && forall j :: 0 <= j < |d.steps| && j != i ==> KeepsMarks(d.steps[j], rows[j])
  {
  }

  lemma ApproveIff(d: Doc, i: nat, actor: Id, env: Env, expected: Role)
    ensures var r := ApproveFlowStep(d, i, actor, env, expected);
            && (r.Success? <==> Waits(d, i, {expected}) && d.status.DocPending? && MayAct(d.steps[i], actor, env))
            && (r.Success? ==>
                 var proxy := ByProxy(d.steps[i], actor, env);
                 var on := Progress(d, ApproveMark(d.steps, i, proxy, actor), Earliest(d.steps, NextFilter(i)));
                 r.value == Log(on, Some(i), actor, ApprovalAction(expected, proxy)))
  {
    if i < |d.steps| { ActorIff(d.steps[i], actor, env); }
  }

  lemma ApproveCall(d: Doc, i: nat, actor: Id, env: Env, expected: Role)
    ensures var r := ApproveFlowStep(d, i, actor, env, expected);
            && (r.Success? <==> Waits(d, i, {expected}) && d.status.DocPending? && MayAct(d.steps[i], actor, env))
            && (r.Success? ==>
                 var proxy := ByProxy(d.steps[i], actor, env);
                 && Leaves(d, r.value, i, actor, ApprovalAction(expected, proxy))
                 && Marked(d.steps[i], r.value.steps[i], if proxy then ProxyApproved else Approved, proxy, actor))
  {
    ApproveIff(d, i, actor, env, expected);
    if i < |d.steps| { ProgressLeaves(d, i, ByProxy(d.steps[i], actor, env), actor); }
  }

  lemma RejectCall(d: Doc, i: nat, actor: Id, env: Env)
    ensures var r := RejectStep(d, i, actor, env);
            && (r.Success? <==> Waits(d, i, FLOW) && d.status.DocPending? && MayAct(d.steps[i], actor, env))
            && (r.Success? ==>
                 && Leaves(d, r.value, i, actor, DidReject)
                 && Marked(d.steps[i], r.value.steps[i], Rejected, ByProxy(d.steps[i], actor, env), actor))
  {
    if i < |d.steps| { ActorIff(d.steps[i], actor, env); }
  }

  lemma PreApproveCall(d: Doc, i: nat, actor: Id, env: Env)
    ensures var r := PreApproveStep(d, i, actor, env);
            && (r.Success? <==>
                 && Waits(d, i, {Approver}) && d.status.DocPending? && d.allowPreApproval
                 && MayAct(d.steps[i], actor, env))
            && (r.Success? ==>
                 && Leaves(d, r.value, i, actor, DidPreApprove)
                 && Marked(d.steps[i], r.value.steps[i], PreApproved, ByProxy(d.steps[i], actor, env), actor))
  {
    if i < |d.steps| { ActorIff(d.steps[i], actor, env); }
  }

  lemma PreviousIff(d: Doc, i: nat)
    requires i < |d.steps|
    ensures Latest(d.steps, PreviousFilter(d.steps[i].order)).Some? <==> HasApprovedBefore(d, i)
  {
    var filter := PreviousFilter(d.steps[i].order);
    if HasApprovedBefore(d, i) {
      var j :| 0 <= j < |d.steps| && IsFlow(d.steps[j].role) && d.steps[j].order < d.steps[i].order &&
        ApprovedStatus(d.steps[j].status);
      assert filter(j, d.steps[j]);
    }
  }

  /** The step returned to loses its mark, the one sent back keeps its own. */
  ghost predicate Returns(d: Doc, d': Doc, i: nat, actor: Id) {
    && i < |d.steps| && |d'.steps| == |d.steps|
    && d'.history == d.history + [Entry(Some(i), actor, DidReturnPrev)]
    && KeepsMarks(d.steps[i], d'.steps[i]) && d'.steps[i].status.Returned?
    && exists p :: 0 <= p < |d.steps| && p != i && Marked(d.steps[p], d'.steps[p], Pending, false, actor) &&
         forall j :: 0 <= j < |d.steps| && j != i && j != p ==> d'.steps[j] == d.steps[j]
  }

  lemma ReturnCall(d: Doc, i: nat, actor: Id, env: Env)
    ensures var r := ReturnToPrevious(d, i, actor, env);
            && (r.Success? <==>
                 && Waits(d, i, FLOW) && d.status.DocPending? && env.prevRejectEnabled && HasApprovedBefore(d, i)
                 && MayAct(d.steps[i], actor, env))
            && (r.Success? ==> Returns(d, r.value, i, actor))
  {
    if i < |d.steps| {
      ActorIff(d.steps[i], actor, env);
      PreviousIff(d, i);
      ReturnLeaves(d, i, actor, env);
    }
  }

  lemma ReturnLeaves(d: Doc, i: nat, actor: Id, env: Env)
    ensures ReturnToPrevious(d, i, actor, env).Success? ==> Returns(d, ReturnToPrevious(d, i, actor, env).value, i, actor)
  {
    var r := ReturnToPrevious(d, i, actor, env);
    if r.Success? {
      var p := Latest(d.steps, PreviousFilter(d.steps[i].order)).value;
      assert p != i && Marked(d.steps[p], r.value.steps[p], Pending, false, actor);
    }
  }

  lemma SideCalls(d: Doc, i: nat, actor: Id, env: Env)
    ensures var r := ViewStep(d, i, actor, env);
            && (r.Success? <==> Waits(d, i, {Reference, Viewer}) && MayAct(d.steps[i], actor, env))
            && (r.Success? ==>
                 && Leaves(d, r.value, i, actor, DidView) && r.value.status == d.status
                 && Marked(d.steps[i], r.value.steps[i], Viewed, ByProxy(d.steps[i], actor, env), actor))
    ensures var r := ReceiveStep(d, i, actor, env);
            && (r.Success? <==>
                 Waits(d, i, {Receiver, DeptReceiver}) && d.status.DocApproved? && MayAct(d.steps[i], actor, env))
            && (r.Success? ==>
                 && Leaves(d, r.value, i, actor, DidReceive) && r.value.status == d.status
                 && Marked(d.steps[i], r.value.steps[i], Received, ByProxy(d.steps[i], actor, env), actor))
    ensures var r := BounceStep(d, i, actor, env);
            && (r.Success? <==> Waits(d, i, {DeptReceiver}) && d.status.DocApproved? && MayAct(d.steps[i], actor, env))
            && (r.Success? ==>
                 && Leaves(d, r.value, i, actor, DidBounce) && r.value.status == d.status
                 && Marked(d.steps[i], r.value.steps[i], Bounced, ByProxy(d.steps[i], actor, env), actor))
  {
    if i < |d.steps| { ActorIff(d.steps[i], actor, env); }
  }

  /** Every call on a step succeeds exactly if the step waits for it and the actor is its assignee, a document
      manager of its department, or a proxy whose newest setting covers today. */
  lemma StepCallIff(d: Doc, op: Operation, env: Env)
    requires IsStepOp(op)
    ensures Perform(d, op, env).Success? <==>
            Ready(d, op, env) && op.step < |d.steps| && MayAct(d.steps[op.step], op.user, env)
  {
    match op
    case OpApprove(i, user) => ApproveCall(d, i, user, env, Approver);
    case OpAgree(i, user) => ApproveCall(d, i, user, env, Agreement);
    case OpDeptCollab(i, user) => ApproveCall(d, i, user, env, DeptCollaborator);
    case OpReject(i, user) => RejectCall(d, i, user, env);
    case OpPreApprove(i, user) => PreApproveCall(d, i, user, env);
    case OpReturnToPrevious(i, user) => ReturnCall(d, i, user, env);
    case OpView(i, user) => SideCalls(d, i, user, env);
    case OpReceive(i, user) => SideCalls(d, i, user, env);
    case OpBounce(i, user) => SideCalls(d, i, user, env);
  }

  function RolesFor(op: Operation): set<Role>
    requires IsStepOp(op)
  {
    match op
    case OpApprove(_, _) | OpPreApprove(_, _) => {Approver}
    case OpAgree(_, _) => {Agreement}
    case OpDeptCollab(_, _) => {DeptCollaborator}
    case OpReject(_, _) | OpReturnToPrevious(_, _) => FLOW
    case OpView(_, _) => {Reference, Viewer}
    case OpReceive(_, _) => {Receiver, DeptReceiver}
    case OpBounce(_, _) => {DeptReceiver}
  }

  /** There is an active setting of the two. */
  ghost predicate HasSetting(env: Env, principal: Id, proxy: Id) {
    exists k: nat :: Newest(env.proxies, principal, proxy, k)
  }

  /** The error is true of the document, the call and the actor. */
  ghost predicate Explains(d: Doc, op: Operation, env: Env, e: ApprovalError)
    requires IsStepOp(op)
  {
    var i, late := op.step, op.OpView? || op.OpReceive? || op.OpBounce?;
    match e
    case DocumentManagedByRequest => d.managed
    case StepNotFound => i >= |d.steps|
    case DocumentNotPending => !late && !d.status.DocPending?
    case DocumentNotApproved => (op.OpReceive? || op.OpBounce?) && !d.status.DocApproved?
    case StepRoleMismatch => i < |d.steps| && d.steps[i].role !in RolesFor(op)
    case StepNotCurrent => i < |d.steps| && !d.steps[i].status.Pending?
    case DocumentPreApprovalNotAllowed => op.OpPreApprove? && !d.allowPreApproval
    case PrevRejectDisabled => op.OpReturnToPrevious? && !env.prevRejectEnabled
    case StepNoPrevious => op.OpReturnToPrevious? && i < |d.steps| && !HasApprovedBefore(d, i)
    case StepNotAssignee =>
      i < |d.steps| && !MayAct(d.steps[i], op.user, env) && !HasSetting(env, d.steps[i].assignee, op.user)
    case ProxyExpired =>
      i < |d.steps| && !MayAct(d.steps[i], op.user, env) && HasSetting(env, d.steps[i].assignee, op.user)
    case _ => false
  }

  lemma ActorRefused(step: Step, actor: Id, env: Env)
    requires ResolveActor(step, actor, env).Failure?
    ensures !MayAct(step, actor, env)
    ensures ResolveActor(step, actor, env).error ==
            if HasSetting(env, step.assignee, actor) then ProxyExpired else StepNotAssignee
  {
    ActorIff(step, actor, env);
    ProxyActsIff(step, actor, env);
    var k := FoundIsNewest(env.proxies, step.assignee, actor);
  }

  lemma ApprovalExplained(d: Doc, op: Operation, env: Env)
    requires IsApprovalOp(op) && Perform(d, op, env).Failure?
    ensures Explains(d, op, env, Perform(d, op, env).error)
  {
    if op.step < |d.steps| {
      if ResolveActor(d.steps[op.step], op.user, env).Failure? { ActorRefused(d.steps[op.step], op.user, env); }
    }
  }

  lemma RejectionExplained(d: Doc, op: Operation, env: Env)
    requires (op.OpReject? || op.OpPreApprove?) && Perform(d, op, env).Failure?
    ensures Explains(d, op, env, Perform(d, op, env).error)
  {
    if op.step < |d.steps| {
      if ResolveActor(d.steps[op.step], op.user, env).Failure? { ActorRefused(d.steps[op.step], op.user, env); }
    }
  }

  lemma ReturnExplained(d: Doc, op: Operation, env: Env)
    requires op.OpReturnToPrevious? && Perform(d, op, env).Failure?
    ensures Explains(d, op, env, Perform(d, op, env).error)
  {
    if op.step < |d.steps| {
      PreviousIff(d, op.step);
      if ResolveActor(d.steps[op.step], op.user, env).Failure? { ActorRefused(d.steps[op.step], op.user, env); }
    }
  }

  lemma SideExplained(d: Doc, op: Operation, env: Env)
    requires (op.OpView? || op.OpReceive? || op.OpBounce?) && Perform(d, op, env).Failure?
    ensures Explains(d, op, env, Perform(d, op, env).error)
  {
    if op.step < |d.steps| {
      if ResolveActor(d.steps[op.step], op.user, env).Failure? { ActorRefused(d.steps[op.step], op.user, env); }
    }
  }

  /** A refused call on a step says what is wrong with it. */
  lemma ErrorExplains(d: Doc, op: Operation, env: Env)
    requires IsStepOp(op) && Perform(d, op, env).Failure?
    ensures Explains(d, op, env, Perform(d, op, env).error)
  {
    if IsApprovalOp(op) {
      ApprovalExplained(d, op, env);
    } else if op.OpReturnToPrevious? {
      ReturnExplained(d, op, env);
    } else if op.OpReject? || op.OpPreApprove? {
      RejectionExplained(d, op, env);
    } else {
      SideExplained(d, op, env);
    }
  }

  /** The status a call leaves on its step, and the action it is logged as. */
  function LeftStatus(op: Operation, proxy: bool): StepStatus
    requires IsStepOp(op)
  {
    match op
    case OpApprove(_, _) | OpAgree(_, _) | OpDeptCollab(_, _) => if proxy then ProxyApproved else Approved
    case OpReject(_, _) => Rejected
    case OpPreApprove(_, _) => PreApproved
    case OpReturnToPrevious(_, _) => Returned
    case OpView(_, _) => Viewed
    case OpReceive(_, _) => Received
    case OpBounce(_, _) => Bounced
  }

  function LoggedAs(op: Operation, proxy: bool): HistoryAction
    requires IsStepOp(op)
  {
    match op
    case OpApprove(_, _) => if proxy then DidProxyApprove else DidApprove
    case OpAgree(_, _) => if proxy then DidProxyApprove else DidAgree
    case OpDeptCollab(_, _) => if proxy then DidProxyApprove else DidDeptCollab
    case OpReject(_, _) => DidReject
    case OpPreApprove(_, _) => DidPreApprove
    case OpReturnToPrevious(_, _) => DidReturnPrev
    case OpView(_, _) => DidView
    case OpReceive(_, _) => DidReceive
    case OpBounce(_, _) => DidBounce
  }

  /** It leaves its status on its step, with the actor's mark exactly if they acted as a proxy (a step sent back
      keeps the mark it has), and one entry with this step and actor. */
  lemma StepCallLeaves(d: Doc, op: Operation, env: Env)
    requires IsStepOp(op) && Perform(d, op, env).Success?
    ensures var d', i := Perform(d, op, env).value, op.step;
            && i < |d.steps| && |d'.steps| == |d.steps|
            && var proxy := ByProxy(d.steps[i], op.user, env);
            && d'.history == d.history + [Entry(Some(i), op.user, LoggedAs(op, proxy))]
            && d'.steps[i].status == LeftStatus(op, proxy)
            && (if op.OpReturnToPrevious? then KeepsMarks(d.steps[i], d'.steps[i])
                else Marked(d.steps[i], d'.steps[i], LeftStatus(op, proxy), proxy, op.user))
  {
    match op
    case OpApprove(i, user) => ApproveCall(d, i, user, env, Approver);
    case OpAgree(i, user) => ApproveCall(d, i, user, env, Agreement);
    case OpDeptCollab(i, user) => ApproveCall(d, i, user, env, DeptCollaborator);
    case OpReject(i, user) => RejectCall(d, i, user, env);
    case OpPreApprove(i, user) => PreApproveCall(d, i, user, env);
    case OpReturnToPrevious(i, user) => ReturnCall(d, i, user, env);
    case OpView(i, user) => SideCalls(d, i, user, env);
    case OpReceive(i, user) => SideCalls(d, i, user, env);
    case OpBounce(i, user) => SideCalls(d, i, user, env);
  }

  // ── Taking an approval back ──

  /** An approval is taken back exactly by the assignee or the proxy who gave it, while every later flow step
      waits or is pending; its mark goes, and no other row changes but a later pending one that waits again. */
  lemma CancelCall(d: Doc, i: nat, actor: Id)
    ensures var r := CancelApproval(d, i, actor);
            && (r.Success? <==>
                 && !d.managed && i < |d.steps| && d.status.DocPending? && ApprovedStatus(d.steps[i].status)
                 && (d.steps[i].assignee == actor || (d.steps[i].isProxy && d.steps[i].proxyId == Some(actor)))
                 && forall j :: 0 <= j < |d.steps| && IsFlow(d.steps[j].role) && d.steps[j].order > d.steps[i].order ==>
                      d.steps[j].status.Waiting? || d.steps[j].status.Pending?)
            && (r.Success? ==>
                 && |r.value.steps| == |d.steps| && r.value.status.DocPending?
                 && r.value.history == d.history + [Entry(Some(i), actor, DidCancelApproval)]
                 && Marked(d.steps[i], r.value.steps[i], Pending, false, actor)
                 && forall j :: 0 <= j < |d.steps| && j != i && r.value.steps[j] != d.steps[j] ==>
                      && IsCurrentAfter(d, i, j) && r.value.steps[j] == d.steps[j].(status := Waiting))
  {
    if i < |d.steps| {
      UntouchedIff(d, i);
    }
  }

  /** A pending flow step of greater stepOrder. */
  predicate IsCurrentAfter(d: Doc, i: nat, j: nat)
    requires i < |d.steps| && j < |d.steps|
  {
    IsFlow(d.steps[j].role) && d.steps[j].order > d.steps[i].order && d.steps[j].status.Pending?
  }

  lemma UntouchedIff(d: Doc, i: nat)
    requires i < |d.steps|
    ensures Earliest(d.steps, ActedLaterFilter(d.steps[i].order)).None? <==>
            forall j :: 0 <= j < |d.steps| && IsFlow(d.steps[j].role) && d.steps[j].order > d.steps[i].order ==>
              d.steps[j].status.Waiting? || d.steps[j].status.Pending?
  {
    var filter := ActedLaterFilter(d.steps[i].order);
    forall j | 0 <= j < |d.steps|
      ensures filter(j, d.steps[j]) <==>
              IsFlow(d.steps[j].role) && d.steps[j].order > d.steps[i].order &&
              !d.steps[j].status.Waiting? && !d.steps[j].status.Pending?
    {
    }
  }

  // ── The drafter ──

  /** The rows of a line as asked for. */
  predicate LineStored(rows: seq<Step>, line: seq<StepInput>) {
    |rows| == |line| && forall j :: 0 <= j < |line| ==>
      && rows[j].role == line[j].role && rows[j].assignee == line[j].assignee && rows[j].org == line[j].org
      && rows[j].order == line[j].order && !rows[j].isProxy && rows[j].proxyId.None?
  }

  /** Only the drafter saves a draft; a given line replaces the rows, which all wait. */
  lemma UpdateCall(d: Doc, line: Option<seq<StepInput>>, user: Id)
    ensures var r := UpdateDraft(d, line, user);
            && (r.Success? <==> !d.managed && d.drafter == user && d.status.DocDraft?)
            && (r.Success? && line.None? ==> r.value == d)
            && (r.Success? && line.Some? ==>
                 && r.value == d.(steps := r.value.steps) && LineStored(r.value.steps, line.value)
                 && forall j :: 0 <= j < |line.value| ==> r.value.steps[j].status.Waiting?)
  {
  }

  /** Only the drafter submits a draft, with a flow step and without an approver step of their own; the line is
      stored, copies are pending, receivers wait, and so do the flow steps but those of least stepOrder. */
  lemma SubmitCall(d: Doc, line: seq<StepInput>, user: Id)
    ensures var r := Submit(d, line, user);
            && (r.Success? <==>
                 && !d.managed && d.drafter == user && d.status.DocDraft?
                 && (exists j :: 0 <= j < |line| && IsFlow(line[j].role))
                 && forall j :: 0 <= j < |line| && line[j].role.Approver? ==> line[j].assignee != d.drafter)
            && (r.Success? ==>
                 && r.value.status.DocPending? && r.value.history == d.history + [Entry(None, user, DidSubmit)]
                 && LineStored(r.value.steps, line)
                 && forall j :: 0 <= j < |line| ==>
                      r.value.steps[j].status ==
                        if IsReceiver(line[j].role) then Waiting
                        else if IsFlow(line[j].role) && !IsFirst(line, j) then Waiting
                        else Pending)
  {
    if Submit(d, line, user).Success? {
      FirstIsLeast(line);
    }
  }

  /** No flow step of the line has a smaller stepOrder. */
  predicate IsFirst(line: seq<StepInput>, j: nat)
    requires j < |line|
  {
    forall h :: 0 <= h < |line| && IsFlow(line[h].role) ==> line[j].order <= line[h].order
  }

  lemma FirstIsLeast(line: seq<StepInput>)
    requires exists j :: 0 <= j < |line| && IsFlow(line[j].role)
    ensures forall j :: 0 <= j < |line| && IsFlow(line[j].role) ==>
              (IsFirst(line, j) <==> Some(line[j].order) == FirstFlowOrder(DraftRows(line)))
  {
    var drafts := DraftRows(line);
    var f :| 0 <= f < |line| && IsFlow(line[f].role);
    assert FlowFilter()(f, drafts[f]);
    var p := Earliest(drafts, FlowFilter()).value;
    forall h | 0 <= h < |line| && IsFlow(line[h].role) ensures drafts[p].order <= line[h].order {
      assert FlowFilter()(h, drafts[h]);
    }
    assert IsFlow(line[p].role) && drafts[p].order == line[p].order;
  }

  /** Only the drafter recalls, while no step is approved; the rows stay as they are. */
  lemma RecallCall(d: Doc, user: Id)
    ensures var r := Recall(d, user);
            && (r.Success? <==>
                 && !d.managed && d.drafter == user && d.status.DocPending?
                 && forall j :: 0 <= j < |d.steps| ==> !IsActed(d.steps[j].status))
            && (r.Success? ==>
                 r.value == d.(status := DocRecalled, history := d.history + [Entry(None, user, DidRecall)]))
  {
  }

  // ── Copies and opinions ──

  /** Some step has the role and assignee of the copy. */
  predicate IsThere(steps: seq<Step>, cc: CcInput) {
    exists j :: 0 <= j < |steps| && steps[j].role == cc.Role() && steps[j].assignee == cc.assignee
  }

  lemma {:induction false} FreshAreMissing(steps: seq<Step>, ccs: seq<CcInput>)
    ensures forall cc :: cc in FreshCcs(steps, ccs) <==> cc in ccs && !IsThere(steps, cc)
  {
    if ccs != [] {
      FreshAreMissing(steps, ccs[1..]);
    }
  }

  /** Copies are added to a pending or approved document by its drafter or an assignee of its flow, exactly if
      one is not there yet; then all asked for are there, the new ones pending and after all other steps, and
      nothing else changes. */
  lemma AddCcCall(d: Doc, ccs: seq<CcInput>, user: Id)
    ensures var r := AddCcSteps(d, ccs, user);
            && (r.Success? <==>
                 && !d.managed && (d.status.DocPending? || d.status.DocApproved?) && d.steps != []
                 && (d.drafter == user || exists j :: 0 <= j < |d.steps| && IsFlow(d.steps[j].role) && d.steps[j].assignee == user)
                 && exists cc :: cc in ccs && !IsThere(d.steps, cc))
            && (r.Success? ==>
                 && r.value == d.(steps := r.value.steps) && d.steps <= r.value.steps
                 && (forall k :: |d.steps| <= k < |r.value.steps| ==> IsNewCopy(d, ccs, r.value.steps[k]))
                 && forall cc :: cc in ccs ==> IsThere(r.value.steps, cc))
  {
    var r := AddCcSteps(d, ccs, user);
    var added := FreshCcs(d.steps, ccs);
    FreshAreMissing(d.steps, ccs);
    if added != [] { assert added[0] in added; }
    if r.Success? {
      CopiesAreThere(d, ccs);
    }
  }

  ghost predicate IsNewCopy(d: Doc, ccs: seq<CcInput>, s: Step) {
    && s.status.Pending? && !s.isProxy && s.org.None?
    && (exists cc :: cc in ccs && !IsThere(d.steps, cc) && s.role == cc.Role() && s.assignee == cc.assignee)
    && forall j :: 0 <= j < |d.steps| ==> d.steps[j].order < s.order
  }

  lemma CopiesAreThere(d: Doc, ccs: seq<CcInput>)
    ensures var rows := d.steps + CcRows(FreshCcs(d.steps, ccs), MaxOrder(d.steps));
            && (forall k :: |d.steps| <= k < |rows| ==> IsNewCopy(d, ccs, rows[k]))
            && forall cc :: cc in ccs ==> IsThere(rows, cc)
  {
    var added := FreshCcs(d.steps, ccs);
    var rows := d.steps + CcRows(added, MaxOrder(d.steps));
    FreshAreMissing(d.steps, ccs);
    forall k | |d.steps| <= k < |rows| ensures IsNewCopy(d, ccs, rows[k]) {
      assert added[k - |d.steps|] in added;
    }
    forall cc | cc in ccs ensures IsThere(rows, cc) {
      CopyIsThere(d, ccs, cc);
    }
  }

  lemma OldIsThere(steps: seq<Step>, more: seq<Step>, cc: CcInput)
    requires IsThere(steps, cc)
    ensures IsThere(steps + more, cc)
  {
    var j :| 0 <= j < |steps| && steps[j].role == cc.Role() && steps[j].assignee == cc.assignee;
    assert (steps + more)[j] == steps[j];
  }

  lemma NewIsThere(steps: seq<Step>, added: seq<CcInput>, m: nat, k: nat)
    requires k < |added|
    ensures IsThere(steps + CcRows(added, m), added[k])
  {
    assert (steps + CcRows(added, m))[|steps| + k] == CcRow(added[k], m + k + 1);
  }

  lemma CopyIsThere(d: Doc, ccs: seq<CcInput>, cc: CcInput)
    requires cc in ccs
    ensures IsThere(d.steps + CcRows(FreshCcs(d.steps, ccs), MaxOrder(d.steps)), cc)
  {
    var added := FreshCcs(d.steps, ccs);
    FreshAreMissing(d.steps, ccs);
    if IsThere(d.steps, cc) {
      OldIsThere(d.steps, CcRows(added, MaxOrder(d.steps)), cc);
    } else {
      var k :| 0 <= k < |added| && added[k] == cc;
      NewIsThere(d.steps, added, MaxOrder(d.steps), k);
    }
  }

  /** Whoever can read a submitted document adds opinions to it: administrators, the drafter, assignees and
      proxies who acted. */
  lemma OpinionCall(d: Doc, user: Id, isAdmin: bool)
    ensures var r := AddOpinion(d, user, isAdmin);
            && (r.Success? <==>
                 && !d.status.DocDraft?
                 && (isAdmin || d.drafter == user ||
                     exists s :: s in d.steps && (s.assignee == user || s.proxyId == Some(user))))
            && (r.Success? ==> r.value == d.(history := d.history + [Entry(None, user, DidOpinion)]))
  {
    if exists s :: s in d.steps && (s.assignee == user || s.proxyId == Some(user)) {
      var s :| s in d.steps && (s.assignee == user || s.proxyId == Some(user));
      var j :| 0 <= j < |d.steps| && d.steps[j] == s;
    }
  }

  // ── Over whole runs ──

  /** What a successful call adds to the history. */
  ghost function EntryOf(d: Doc, op: Operation, env: Env): seq<Entry> {
    if IsStepOp(op) then
      if op.step < |d.steps| then [Entry(Some(op.step), op.user, LoggedAs(op, ByProxy(d.steps[op.step], op.user, env)))] else []
    else match op
      case OpSubmit(_, user) => [Entry(None, user, DidSubmit)]
      case OpRecall(user) => [Entry(None, user, DidRecall)]
      case OpCancelApproval(i, user) => [Entry(Some(i), user, DidCancelApproval)]
      case OpAddOpinion(user, _) => [Entry(None, user, DidOpinion)]
      case _ => []
  }

  lemma CallIsLogged(d: Doc, op: Operation, env: Env)
    requires Perform(d, op, env).Success?
    ensures Perform(d, op, env).value.history == d.history + EntryOf(d, op, env)
  {
    if IsStepOp(op) {
      StepCallLeaves(d, op, env);
    } else {
      match op
      case OpUpdate(line, user) => UpdateCall(d, line, user);
      case OpSubmit(line, user) => SubmitCall(d, line, user);
      case OpRecall(user) => RecallCall(d, user);
      case OpCancelApproval(i, user) => CancelCall(d, i, user);
      case OpAddCc(ccs, user) => AddCcCall(d, ccs, user);
      case OpAddOpinion(user, isAdmin) => OpinionCall(d, user, isAdmin);
    }
  }

  /** The successful calls of a run, as the history should have them. */
  ghost function LogOf(d: Doc, calls: seq<(Operation, Env)>): seq<Entry> {
    if calls == [] then [] else
    var most := calls[..|calls| - 1];
    var (op, env) := calls[|calls| - 1];
    LogOf(d, most) + if Perform(Run(d, most), op, env).Success? then EntryOf(Run(d, most), op, env) else []
  }

  /** The history is the log of the successful calls: each under its step, its actor and its action, in order. */
  lemma {:induction false} HistoryIsLog(d: Doc, calls: seq<(Operation, Env)>)
    ensures Run(d, calls).history == d.history + LogOf(d, calls)
    decreases |calls|
  {
    if calls != [] {
      var most := calls[..|calls| - 1];
      var (op, env) := calls[|calls| - 1];
      HistoryIsLog(d, most);
      if Perform(Run(d, most), op, env).Success? { CallIsLogged(Run(d, most), op, env); }
    }
  }

  /** Call `n` of the run is an action of this actor on this step, which they had the right to at the time. */
  ghost predicate ActedByRight(d: Doc, calls: seq<(Operation, Env)>, n: nat, step: nat, actor: Id) {
    n < |calls| && IsStepOp(calls[n].0) && calls[n].0.step == step && calls[n].0.user == actor &&
    step < |Run(d, calls[..n]).steps| && MayAct(Run(d, calls[..n]).steps[step], actor, calls[n].1)
  }

  lemma LastEntryByRight(d: Doc, calls: seq<(Operation, Env)>, k: nat)
    requires calls != [] && |Run(d, calls[..|calls| - 1]).history| <= k < |Run(d, calls).history|
    requires Run(d, calls).history[k].step.Some? && !Run(d, calls).history[k].action.DidCancelApproval?
    ensures ActedByRight(d, calls, |calls| - 1, Run(d, calls).history[k].step.value, Run(d, calls).history[k].actor)
  {
    var before := Run(d, calls[..|calls| - 1]);
    var (op, env) := calls[|calls| - 1];
    CallIsLogged(before, op, env);
    if IsStepOp(op) { StepCallIff(before, op, env); }
  }

  lemma ActedSooner(d: Doc, calls: seq<(Operation, Env)>, n: nat, step: nat, actor: Id)
    requires calls != [] && ActedByRight(d, calls[..|calls| - 1], n, step, actor)
    ensures ActedByRight(d, calls, n, step, actor)
  {
    assert calls[..|calls| - 1][..n] == calls[..n];
  }

  lemma EarlierEntryStays(d: Doc, calls: seq<(Operation, Env)>, k: nat)
    requires calls != [] && k < |Run(d, calls[..|calls| - 1]).history|
    ensures k < |Run(d, calls).history| && Run(d, calls).history[k] == Run(d, calls[..|calls| - 1]).history[k]
  {
    var (op, env) := calls[|calls| - 1];
    var before := Run(d, calls[..|calls| - 1]);
    if Perform(before, op, env).Success? { CallIsLogged(before, op, env); }
  }

  lemma {:induction false} EntryByRight(d: Doc, calls: seq<(Operation, Env)>, k: nat) returns (n: nat)
    requires |d.history| <= k < |Run(d, calls).history|
    requires Run(d, calls).history[k].step.Some? && !Run(d, calls).history[k].action.DidCancelApproval?
    ensures ActedByRight(d, calls, n, Run(d, calls).history[k].step.value, Run(d, calls).history[k].actor)
    decreases |calls|
  {
    var m := |calls| - 1;
    if k < |Run(d, calls[..m]).history| {
      EarlierEntryStays(d, calls, k);
      n := EntryByRight(d, calls[..m], k);
      var entry := Run(d, calls[..m]).history[k];
      ActedSooner(d, calls, n, entry.step.value, entry.actor);
    } else {
      LastEntryByRight(d, calls, k);
      n := m;
    }
  }

  /** Over every run of a new draft, whatever the history says somebody did on a step, but taking an approval
      back, they did in a call of theirs that they had the right to make on that step at that moment. */
  lemma EveryEntryByRight(drafter: Id, allow: bool, line: seq<StepInput>, calls: seq<(Operation, Env)>, k: nat)
    requires k < |Run(CreateDraft(drafter, allow, line), calls).history|
    ensures var d := CreateDraft(drafter, allow, line);
            var entry := Run(d, calls).history[k];
            entry.step.Some? && !entry.action.DidCancelApproval? ==>
              exists n: nat :: ActedByRight(d, calls, n, entry.step.value, entry.actor)
  {
    var d := CreateDraft(drafter, allow, line);
    var entry := Run(d, calls).history[k];
    if entry.step.Some? && !entry.action.DidCancelApproval? {
      var n := EntryByRight(d, calls, k);
    }
  }

  // ── Nobody approves their own document as an approver ──

  ghost predicate NoSelfApprover(d: Doc) {
    !d.status.DocDraft? ==> forall j :: 0 <= j < |d.steps| && d.steps[j].role.Approver? ==> d.steps[j].assignee != d.drafter
  }

  lemma DrafterStays(d: Doc, op: Operation, env: Env)
    requires Perform(d, op, env).Success?
    ensures Perform(d, op, env).value.drafter == d.drafter
  {
    match op
    case OpApprove(i, user) => ApproveIff(d, i, user, env, Approver);
    case OpAgree(i, user) => ApproveIff(d, i, user, env, Agreement);
    case OpDeptCollab(i, user) => ApproveIff(d, i, user, env, DeptCollaborator);
    case _ =>
  }

  /** Over every run of a new draft, no approver step of the submitted document is the drafter's. */
  lemma {:induction false} NoSelfApproval(drafter: Id, allow: bool, line: seq<StepInput>, calls: seq<(Operation, Env)>)
    ensures Run(CreateDraft(drafter, allow, line), calls).drafter == drafter
    ensures NoSelfApprover(Run(CreateDraft(drafter, allow, line), calls))
    decreases |calls|
  {
    if calls != [] {
      var most := calls[..|calls| - 1];
      var before := Run(CreateDraft(drafter, allow, line), most);
      var (op, env) := calls[|calls| - 1];
      NoSelfApproval(drafter, allow, line, most);
      RunKeepsInv(drafter, allow, line, most);
      if Perform(before, op, env).Success? {
        DrafterStays(before, op, env);
        CallKeepsNoSelf(before, op, env);
      }
    }
  }

  lemma CallKeepsNoSelf(d: Doc, op: Operation, env: Env)
    requires Inv(d) && NoSelfApprover(d) && Perform(d, op, env).Success?
    requires Perform(d, op, env).value.drafter == d.drafter
    ensures NoSelfApprover(Perform(d, op, env).value)
  {
    if d.status.DocDraft? {
      if op.OpSubmit? { SubmitCall(d, op.line, op.user); }
    } else {
      PerformKeepsSides(d, op, env);
    }
  }
}
