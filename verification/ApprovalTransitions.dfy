/** Every action on a document as a function from the stored document to the stored document. */
module ApprovalTransitions {
  import opened Wrappers
  import opened ApprovalTypes
  import opened StepTable

  type Answer = Result<Doc, ApprovalError>

  // ── Guards ──

  function LoadTarget(d: Doc, i: nat): (r: Result<Step, ApprovalError>) {
    if d.managed then Failure(DocumentManagedByRequest)
    else if i >= |d.steps| then Failure(StepNotFound)
    else Success(d.steps[i])
  }

  /** The newest active setting that lets `proxy` act for `principal`. */
  function FindProxy(proxies: seq<ProxySetting>, principal: Id, proxy: Id): Option<ProxySetting> {
    if proxies == [] then None
    else if proxies[0].principal == principal && proxies[0].proxy == proxy && proxies[0].isActive then
      Some(proxies[0])
    else FindProxy(proxies[1..], principal, proxy)
  }

  /** May `actor` act on the step, and if so, is it as a proxy? */
  function ResolveActor(step: Step, actor: Id, env: Env): Result<bool, ApprovalError> {
    if step.assignee == actor then Success(false)
    else if IsDept(step.role) && step.org.Some? && (step.org.value, actor) in env.docManagers then
      Success(false)
    else
      match FindProxy(env.proxies, step.assignee, actor)
      case None => Failure(StepNotAssignee)
      case Some(setting) =>
        if setting.startDate > env.today || setting.endDate < env.today then Failure(ProxyExpired)
        else Success(true)
  }

  /** The guards shared by the actions on a pending flow step. */
  function Admit(d: Doc, i: nat, roles: set<Role>): Result<Step, ApprovalError> {
    var step :- LoadTarget(d, i);
    :- Need(d.status.DocPending?, DocumentNotPending);
    :- Need(step.role in roles, StepRoleMismatch);
    :- Need(step.status.Pending?, StepNotCurrent);
    Success(step)
  }

  const FLOW_ROLES: set<Role> := {Approver, Agreement, DeptCollaborator}

  // ── Row updates ──

  function Act(step: Step, status: StepStatus, proxy: bool, actor: Id): Step {
    step.(status := status, isProxy := proxy, proxyId := if proxy then Some(actor) else None)
  }

  function Reopen(step: Step): Step {
    step.(status := Pending, isProxy := false, proxyId := None)
  }

  function Log(d: Doc, step: Option<nat>, actor: Id, action: HistoryAction): Doc {
    d.(history := d.history + [Entry(step, actor, action)])
  }

  /** The candidates to be activated after step `i`. */
  function NextFilter(i: nat): StepFilter {
    (j: nat, s: Step) => j != i && IsFlow(s.role) && (s.status.Waiting? || s.status.Returned?)
  }

  function ReceiverFilter(): StepFilter {
    (j: nat, s: Step) => IsReceiver(s.role) && s.status.Waiting?
  }

  function RemainingFilter(i: nat): StepFilter {
    (j: nat, s: Step) =>
      j != i && (IsFlow(s.role) || IsReceiver(s.role)) && (s.status.Waiting? || s.status.Pending?)
  }

  function SkipFilter(): StepFilter {
    (j: nat, s: Step) => IsFlow(s.role) && (s.status.Waiting? || s.status.Returned?)
  }

  function PreviousFilter(order: nat): StepFilter {
    (j: nat, s: Step) =>
      IsFlow(s.role) && s.order < order && (s.status.Approved? || s.status.ProxyApproved?)
  }

  function ActedLaterFilter(order: nat): StepFilter {
    (j: nat, s: Step) =>
      IsFlow(s.role) && s.order > order && !s.status.Waiting? && !s.status.Pending?
  }

  function PendingLaterFilter(order: nat): StepFilter {
    (j: nat, s: Step) => IsFlow(s.role) && s.order > order && s.status.Pending?
  }

  function FlowFilter(): StepFilter {
    (j: nat, s: Step) => IsFlow(s.role)
  }

  /** Final approval: receivers become active. */
  function Finalize(steps: seq<Step>): seq<Step> {
    UpdateMany(steps, ReceiverFilter(), Pending)
  }

  // ── Approve, agree, department collaboration ──

  function ApprovalAction(expected: Role, proxy: bool): HistoryAction {
    if proxy then DidProxyApprove
    else if expected.Agreement? then DidAgree
    else if expected.DeptCollaborator? then DidDeptCollab
    else DidApprove
  }

  function ApproveMark(steps: seq<Step>, i: nat, proxy: bool, actor: Id): seq<Step>
    requires i < |steps|
  {
    steps[i := Act(steps[i], if proxy then ProxyApproved else Approved, proxy, actor)]
  }

  /** After a step of the loaded document `d` was marked in `marked`: activate the next step, or
      approve the document if there is none. */
  function Progress(d: Doc, marked: seq<Step>, next: Option<nat>): Doc
    requires |marked| == |d.steps| && (next.Some? ==> next.value < |d.steps|)
  {
    match next
    case Some(m) => d.(steps := marked[m := marked[m].(status := Pending)])
    case None => d.(steps := Finalize(marked), status := DocApproved)
  }

  function ApproveFlowStep(d: Doc, i: nat, actor: Id, env: Env, expected: Role): Answer {
    var step :- Admit(d, i, {expected});
    var proxy :- ResolveActor(step, actor, env);
    var marked := ApproveMark(d.steps, i, proxy, actor);
    var progressed := Progress(d, marked, Earliest(d.steps, NextFilter(i)));
    Success(Log(progressed, Some(i), actor, ApprovalAction(expected, proxy)))
  }

  // ── Reject and pre-approve ──

  /** Step `i` is refused; the remaining flow and receiver steps are cancelled. */
  function RejectRows(steps: seq<Step>, i: nat, proxy: bool, actor: Id): seq<Step>
    requires i < |steps|
  {
    UpdateMany(steps[i := Act(steps[i], Rejected, proxy, actor)], RemainingFilter(i), Cancelled)
  }

  /** Step `i` approves for all the steps after it, and receivers become active. */
  function PreApproveRows(steps: seq<Step>, i: nat, proxy: bool, actor: Id): seq<Step>
    requires i < |steps|
  {
    Finalize(UpdateMany(steps[i := Act(steps[i], PreApproved, proxy, actor)], SkipFilter(), Skipped))
  }

  function RejectStep(d: Doc, i: nat, actor: Id, env: Env): Answer {
    var step :- Admit(d, i, FLOW_ROLES);
    var proxy :- ResolveActor(step, actor, env);
    var rows := RejectRows(d.steps, i, proxy, actor);
    Success(Log(d.(steps := rows, status := DocRejected), Some(i), actor, DidReject))
  }

  function PreApproveStep(d: Doc, i: nat, actor: Id, env: Env): Answer {
    var step :- Admit(d, i, {Approver});
    :- Need(d.allowPreApproval, DocumentPreApprovalNotAllowed);
    var proxy :- ResolveActor(step, actor, env);
    var rows := PreApproveRows(d.steps, i, proxy, actor);
    Success(Log(d.(steps := rows, status := DocApproved), Some(i), actor, DidPreApprove))
  }

  // ── Backwards moves ──

  /** Step `i` is sent back and step `p` becomes the current one again. */
  function ReturnRows(steps: seq<Step>, i: nat, p: nat): seq<Step>
    requires i < |steps| && p < |steps|
  {
    steps[i := steps[i].(status := Returned)][p := Reopen(steps[p])]
  }

  /** Step `i` becomes the current one again; the current one, if any, waits. */
  function CancelRows(steps: seq<Step>, i: nat, pending: Option<nat>): seq<Step>
    requires i < |steps| && (pending.Some? ==> pending.value < |steps|)
  {
    var reopened := steps[i := Reopen(steps[i])];
    match pending
    case Some(m) => reopened[m := reopened[m].(status := Waiting)]
    case None => reopened
  }

  function ReturnToPrevious(d: Doc, i: nat, actor: Id, env: Env): Answer {
    var step :- Admit(d, i, FLOW_ROLES);
    var _ :- ResolveActor(step, actor, env);
    :- Need(env.prevRejectEnabled, PrevRejectDisabled);
    var previous := Latest(d.steps, PreviousFilter(step.order));
    :- Need(previous.Some?, StepNoPrevious);
    var rows := ReturnRows(d.steps, i, previous.value);
    Success(Log(d.(steps := rows), Some(i), actor, DidReturnPrev))
  }

  /** Whether `actor` is the one who approved the step. */
  predicate IsOwnAction(step: Step, actor: Id) {
    step.assignee == actor || (step.isProxy && step.proxyId == Some(actor))
  }

  function CancelApproval(d: Doc, i: nat, actor: Id): Answer {
    var step :- LoadTarget(d, i);
    :- Need(d.status.DocPending?, DocumentCannotCancel);
    :- Need(step.status.Approved? || step.status.ProxyApproved?, StepNotCurrent);
    :- Need(IsOwnAction(step, actor), StepNotAssignee);
    :- Need(Earliest(d.steps, ActedLaterFilter(step.order)).None?, DocumentCannotCancel);
    var rows := CancelRows(d.steps, i, Earliest(d.steps, PendingLaterFilter(step.order)));
    Success(Log(d.(steps := rows), Some(i), actor, DidCancelApproval))
  }

  // ── Side steps: carbon copies and receivers ──

  function ViewStep(d: Doc, i: nat, actor: Id, env: Env): Answer {
    var step :- LoadTarget(d, i);
    :- Need(step.role.Reference? || step.role.Viewer?, StepRoleMismatch);
    :- Need(step.status.Pending?, StepNotCurrent);
    var proxy :- ResolveActor(step, actor, env);
    Success(Log(d.(steps := d.steps[i := Act(step, Viewed, proxy, actor)]), Some(i), actor, DidView))
  }

  function ReceiveStep(d: Doc, i: nat, actor: Id, env: Env): Answer {
    var step :- LoadTarget(d, i);
    :- Need(IsReceiver(step.role), StepRoleMismatch);
    :- Need(d.status.DocApproved?, DocumentNotApproved);
    :- Need(step.status.Pending?, StepNotCurrent);
    var proxy :- ResolveActor(step, actor, env);
    Success(Log(d.(steps := d.steps[i := Act(step, Received, proxy, actor)]), Some(i), actor, DidReceive))
  }

  function BounceStep(d: Doc, i: nat, actor: Id, env: Env): Answer {
    var step :- LoadTarget(d, i);
    :- Need(step.role.DeptReceiver?, StepRoleMismatch);
    :- Need(d.status.DocApproved?, DocumentNotApproved);
    :- Need(step.status.Pending?, StepNotCurrent);
    var proxy :- ResolveActor(step, actor, env);
    Success(Log(d.(steps := d.steps[i := Act(step, Bounced, proxy, actor)]), Some(i), actor, DidBounce))
  }

  function MaxOrder(steps: seq<Step>): (m: nat)
    ensures forall j :: 0 <= j < |steps| ==> steps[j].order <= m
  {
    if steps == [] then 0 else
    var before := MaxOrder(steps[..|steps| - 1]);
    if steps[|steps| - 1].order > before then steps[|steps| - 1].order else before
  }

  /** The requested copies whose role and assignee no step has yet. */
  function FreshCcs(steps: seq<Step>, ccs: seq<CcInput>): (r: seq<CcInput>)
    ensures forall k :: 0 <= k < |r| ==>
      r[k] in ccs && forall j :: 0 <= j < |steps| ==>
        steps[j].role != r[k].Role() || steps[j].assignee != r[k].assignee
  {
    if ccs == [] then [] else
    var rest := FreshCcs(steps, ccs[1..]);
    if exists j :: 0 <= j < |steps| && steps[j].role == ccs[0].Role() && steps[j].assignee == ccs[0].assignee
    then rest else [ccs[0]] + rest
  }

  function CcRow(cc: CcInput, order: nat): Step {
    Step(cc.Role(), cc.assignee, None, order, Pending, false, None)
  }

  function CcRows(added: seq<CcInput>, maxOrder: nat): seq<Step> {
    seq(|added|, k requires 0 <= k < |added| => CcRow(added[k], maxOrder + k + 1))
  }

  predicate TakesPart(steps: seq<Step>, user: Id) {
    exists j :: 0 <= j < |steps| && IsFlow(steps[j].role) && steps[j].assignee == user
  }

  function AddCcSteps(d: Doc, ccs: seq<CcInput>, user: Id): Answer {
    if d.managed then Failure(DocumentManagedByRequest) else
    :- Need(d.status.DocPending? || d.status.DocApproved?, DocumentCcNotAllowed);
    :- Need(d.drafter == user || TakesPart(d.steps, user), DocumentCcForbidden);
    :- Need(d.steps != [], DocumentNoApprovalLine);
    var added := FreshCcs(d.steps, ccs);
    :- Need(added != [], DocumentCcDuplicate);
    Success(d.(steps := d.steps + CcRows(added, MaxOrder(d.steps))))
  }

  predicate CanRead(d: Doc, user: Id, isAdmin: bool) {
    isAdmin || d.drafter == user ||
    exists j :: 0 <= j < |d.steps| &&
      (d.steps[j].assignee == user || d.steps[j].proxyId == Some(user))
  }

  function AddOpinion(d: Doc, user: Id, isAdmin: bool): Answer {
    if d.status.DocDraft? then Failure(DocumentOpinionNotAllowed) else
    :- Need(CanRead(d, user, isAdmin), DocumentAccessForbidden);
    Success(Log(d, None, user, DidOpinion))
  }

  // ── Draft, submit, recall ──

  function DraftRows(steps: seq<StepInput>): seq<Step> {
    seq(|steps|, j requires 0 <= j < |steps| =>
      Step(steps[j].role, steps[j].assignee, steps[j].org, steps[j].order, Waiting, false, None))
  }

  function CreateDraft(drafter: Id, allowPreApproval: bool, steps: seq<StepInput>): Doc {
    Doc(DocDraft, false, drafter, allowPreApproval, DraftRows(steps), [])
  }

  /** Save a draft; a given line replaces the stored one. */
  function UpdateDraft(d: Doc, steps: Option<seq<StepInput>>, user: Id): Answer {
    if d.managed then Failure(DocumentManagedByRequest) else
    :- Need(d.drafter == user, DocumentNotDrafter);
    :- Need(d.status.DocDraft?, DocumentAlreadySubmitted);
    Success(if steps.Some? then d.(steps := DraftRows(steps.value)) else d)
  }

  function InitialStatus(role: Role, order: nat, firstFlowOrder: Option<nat>): StepStatus {
    if IsFlow(role) then (if Some(order) == firstFlowOrder then Pending else Waiting)
    else if IsReceiver(role) then Waiting
    else Pending
  }

  /** The stepOrder of the first flow step. */
  function FirstFlowOrder(steps: seq<Step>): Option<nat> {
    match Earliest(steps, FlowFilter())
    case None => None
    case Some(m) => Some(steps[m].order)
  }

  function SubmitRows(steps: seq<StepInput>): (r: seq<Step>)
    ensures |r| == |steps|
  {
    var rows := DraftRows(steps);
    var first := FirstFlowOrder(rows);
    seq(|rows|, j requires 0 <= j < |rows| =>
      rows[j].(status := InitialStatus(rows[j].role, rows[j].order, first)))
  }

  function Submit(d: Doc, steps: seq<StepInput>, user: Id): Answer {
    if d.managed then Failure(DocumentManagedByRequest) else
    :- Need(d.drafter == user, DocumentNotDrafter);
    :- Need(d.status.DocDraft?, DocumentAlreadySubmitted);
    :- Need(exists j :: 0 <= j < |steps| && IsFlow(steps[j].role), ApprovalLineEmpty);
    :- Need(!exists j :: 0 <= j < |steps| && steps[j].role.Approver? && steps[j].assignee == d.drafter,
            ApprovalSelfNotAllowed);
    Success(Log(d.(steps := SubmitRows(steps), status := DocPending), None, user, DidSubmit))
  }

  function Recall(d: Doc, user: Id): Answer {
    if d.managed then Failure(DocumentManagedByRequest) else
    :- Need(d.drafter == user, DocumentNotDrafter);
    :- Need(d.status.DocPending?, DocumentCannotRecall);
    :- Need(!exists j :: 0 <= j < |d.steps| && IsActed(d.steps[j].status), DocumentCannotRecall);
    Success(Log(d.(status := DocRecalled), None, user, DidRecall))
  }

  // ── Derived views ──

  datatype Phase = PhaseSubmitted | PhaseInProgress | NoPhase

  function DerivePhase(d: Doc): Phase {
    if !d.status.DocPending? then NoPhase
    else if exists j :: 0 <= j < |d.steps| && IsActed(d.steps[j].status) then PhaseInProgress
    else PhaseSubmitted
  }

  function PendingFlowFilter(): StepFilter {
    (j: nat, s: Step) => IsFlow(s.role) && s.status.Pending?
  }

  /** The assignee whose turn it is. */
  function DeriveCurrentApprover(d: Doc): Option<Id> {
    match Earliest(d.steps, PendingFlowFilter())
    case None => None
    case Some(m) => Some(d.steps[m].assignee)
  }

  // ── Operations and runs ──

  datatype Operation =
    | OpUpdate(lineUpdate: Option<seq<StepInput>>, user: Id)
    | OpSubmit(line: seq<StepInput>, user: Id)
    | OpRecall(user: Id)
    | OpApprove(step: nat, user: Id)
    | OpAgree(step: nat, user: Id)
    | OpDeptCollab(step: nat, user: Id)
    | OpReject(step: nat, user: Id)
    | OpPreApprove(step: nat, user: Id)
    | OpReturnToPrevious(step: nat, user: Id)
    | OpCancelApproval(step: nat, user: Id)
    | OpView(step: nat, user: Id)
    | OpReceive(step: nat, user: Id)
    | OpBounce(step: nat, user: Id)
    | OpAddCc(ccs: seq<CcInput>, user: Id)
    | OpAddOpinion(user: Id, isAdmin: bool)

  function Perform(d: Doc, op: Operation, env: Env): Answer {
    match op
    case OpUpdate(line, user) => UpdateDraft(d, line, user)
    case OpSubmit(line, user) => Submit(d, line, user)
    case OpRecall(user) => Recall(d, user)
    case OpApprove(i, user) => ApproveFlowStep(d, i, user, env, Approver)
    case OpAgree(i, user) => ApproveFlowStep(d, i, user, env, Agreement)
    case OpDeptCollab(i, user) => ApproveFlowStep(d, i, user, env, DeptCollaborator)
    case OpReject(i, user) => RejectStep(d, i, user, env)
    case OpPreApprove(i, user) => PreApproveStep(d, i, user, env)
    case OpReturnToPrevious(i, user) => ReturnToPrevious(d, i, user, env)
    case OpCancelApproval(i, user) => CancelApproval(d, i, user)
    case OpView(i, user) => ViewStep(d, i, user, env)
    case OpReceive(i, user) => ReceiveStep(d, i, user, env)
    case OpBounce(i, user) => BounceStep(d, i, user, env)
    case OpAddCc(ccs, user) => AddCcSteps(d, ccs, user)
    case OpAddOpinion(user, isAdmin) => AddOpinion(d, user, isAdmin)
  }

  /** Any calls in any order, each in its own environment; a call that throws changes nothing. */
  function Run(d: Doc, calls: seq<(Operation, Env)>): Doc {
    if calls == [] then d else
    var before := Run(d, calls[..|calls| - 1]);
    var (op, env) := calls[|calls| - 1];
    match Perform(before, op, env)
    case Success(after) => after
    case Failure(_) => before
  }
}
