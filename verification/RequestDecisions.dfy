/** Who may decide a request, when a call succeeds, and what it leaves. */
module RequestDecisions {
  import opened Wrappers
  import opened RequestRounds
  import opened RequestDesk
  import opened RequestLaws
  import L = LeaveLedger

  predicate IsPending(d: Desk, id: Id) {
    id in d.requests && d.requests[id].status.ReqPending?
  }

  predicate ShareDepartment(s: Setting, a: Id, b: Id) {
    exists org :: org in OrgsOf(s, a) && org in OrgsOf(s, b)
  }

  /** A step of the request's document waits for the employee. */
  predicate IsAwaited(d: Desk, r: Request, employee: Id) {
    r.document.Some? && r.document.value in d.docs &&
    exists step :: step in d.docs[r.document.value].steps && step.isPending && step.assignee == employee
  }

  /** Who decides: administrators of the company, those of a department of the requester, and whoever's step
      is pending; never the requester. */
  predicate MayDecide(s: Setting, d: Desk, r: Request, user: User) {
    user.id != r.requester &&
    match user.access
    case SuperAdmin | GeneralAdmin => true
    case OrgAdmin => ShareDepartment(s, user.id, r.requester) || IsAwaited(d, r, user.id)
    case Employee => IsAwaited(d, r, user.id)
  }

  lemma AwaitedIff(d: Desk, r: Request, employee: Id)
    ensures HasPendingStep(d, r.document, employee) <==> IsAwaited(d, r, employee)
  {
    if HasPendingStep(d, r.document, employee) {
      var steps := d.docs[r.document.value].steps;
      var j :| 0 <= j < |steps| && steps[j].isPending && steps[j].assignee == employee;
      assert steps[j] in steps;
    }
  }

  lemma ApproverIff(s: Setting, d: Desk, r: Request, user: User)
    ensures IsApprover(s, d, r, user).Pass? <==> MayDecide(s, d, r, user)
    ensures IsApprover(s, d, r, user) == Fail(RequestSelfApproval) <==> user.id == r.requester
  {
    AwaitedIff(d, r, user.id);
    SharesIff(s, user.id, r.requester);
  }

  lemma SharesIff(s: Setting, a: Id, b: Id)
    ensures OrgsOf(s, a) * OrgsOf(s, b) != {} <==> ShareDepartment(s, a, b)
  {
    var common := OrgsOf(s, a) * OrgsOf(s, b);
    if common != {} {
      var org :| org in common;
      assert org in OrgsOf(s, a) && org in OrgsOf(s, b);
    }
    if ShareDepartment(s, a, b) {
      var org :| org in OrgsOf(s, a) && org in OrgsOf(s, b);
      assert org in common;
    }
  }

  /** Request `id` gets a status and entries, and nothing else about any request changes. */
  ghost predicate Decides(d: Desk, d': Desk, id: Id, status: RequestStatus, entries: seq<Approval>) {
    && id in d.requests
    && d'.requests == d.requests[id := d.requests[id].(status := status, approvals := d.requests[id].approvals + entries)]
    && d'.nextRequest == d.nextRequest && d'.nextDoc == d.nextDoc && d'.faults == d.faults
  }

  /** No effect is applied. */
  ghost predicate NothingApplied(d: Desk, d': Desk) {
    d'.ledger == d.ledger && d'.applied == d.applied
  }

  /** The effect of request `id` is applied. */
  ghost predicate Applies(s: Setting, d: Desk, d': Desk, id: Id) {
    && id in d.requests && d'.applied == d.applied + [id]
    && ApplyApproved(s, d.ledger, d.faults, d.requests[id].requester, d.requests[id].payload) == Success(d'.ledger)
  }

  predicate CanApply(s: Setting, d: Desk, id: Id)
    requires id in d.requests
  {
    ApplyApproved(s, d.ledger, d.faults, d.requests[id].requester, d.requests[id].payload).Success?
  }

  function RuleOf(s: Setting, d: Desk, id: Id): Option<Rule>
    requires id in d.requests
  {
    RuleFor(s, d.requests[id].payload)
  }

  function RoundOf(s: Setting, d: Desk, id: Id): nat
    requires id in d.requests
  {
    CurrentRound(RuleOf(s, d, id), d.requests[id].approvals)
  }

  /** One approval more makes as many as all rounds together ask for. */
  predicate IsLastApproval(s: Setting, d: Desk, id: Id)
    requires id in d.requests
  {
    |d.requests[id].approvals| + 1 == RequiredUpTo(RuleOf(s, d, id), MaxRounds(RuleOf(s, d, id)))
  }

  // ── Approving ──

  /** An approval is accepted exactly from someone who may decide and has not approved this round yet, and
      if it is the last one only when its effect goes through; it is recorded for the current round. */
  lemma ApproveIff(s: Setting, d: Desk, id: Id, user: User)
    requires Inv(s, d)
    ensures var r := Approve(s, d, id, user);
            && (r.Success? <==>
                 && IsPending(d, id) && MayDecide(s, d, d.requests[id], user)
                 && !HasApproved(d.requests[id].approvals, RoundOf(s, d, id), user.id)
                 && (IsLastApproval(s, d, id) ==> CanApply(s, d, id)))
            && (r.Success? ==>
                 var last := IsLastApproval(s, d, id);
                 && Decides(d, r.value, id, if last then ReqApproved else ReqPending,
                            [Approval(RoundOf(s, d, id), user.id, GaveApproval)])
                 && (if last then Applies(s, d, r.value, id) else NothingApplied(d, r.value)))
  {
    if IsPending(d, id) {
      ApproveIsAdvanceIff(s, d, id, user);
      AdvanceIff(s, d, id, user.id);
      LastIff(s, d, id, user.id);
    }
  }

  /** Request `id` with one approval more, for its current round. */
  function WithOneMore(s: Setting, d: Desk, id: Id, approver: Id): Request
    requires id in d.requests
  {
    d.requests[id].(approvals := WithApproval(d.requests[id].approvals, RoundOf(s, d, id), approver))
  }

  predicate CompletesLastRound(s: Setting, d: Desk, id: Id, approver: Id)
    requires id in d.requests
  {
    && CountIn(WithOneMore(s, d, id, approver).approvals, RoundOf(s, d, id)) >= RoundRequired(RuleOf(s, d, id), RoundOf(s, d, id))
    && RoundOf(s, d, id) >= MaxRounds(RuleOf(s, d, id))
  }

  lemma LastIff(s: Setting, d: Desk, id: Id, approver: Id)
    requires Inv(s, d) && IsPending(d, id)
    ensures CompletesLastRound(s, d, id, approver) <==> IsLastApproval(s, d, id)
  {
    assert RequestOk(s, d, d.requests[id]);
    LastApprovalIffSum(RuleOf(s, d, id), d.requests[id].approvals, RoundOf(s, d, id), approver);
  }

  lemma ApproveIsAdvanceIff(s: Setting, d: Desk, id: Id, user: User)
    requires IsPending(d, id)
    ensures var next := Advance(s, d, id, WithOneMore(s, d, id, user.id), RoundOf(s, d, id));
            && (Approve(s, d, id, user).Success? <==>
                 && MayDecide(s, d, d.requests[id], user)
                 && !HasApproved(d.requests[id].approvals, RoundOf(s, d, id), user.id) && next.Success?)
            && (Approve(s, d, id, user).Success? ==> Approve(s, d, id, user) == next)
  {
    ApproverIff(s, d, d.requests[id], user);
  }

  lemma AdvanceIff(s: Setting, d: Desk, id: Id, approver: Id)
    requires IsPending(d, id)
    ensures var round, last := RoundOf(s, d, id), CompletesLastRound(s, d, id, approver);
            var next := Advance(s, d, id, WithOneMore(s, d, id, approver), round);
            && (next.Success? <==> (last ==> CanApply(s, d, id)))
            && (next.Success? ==>
                 && Decides(d, next.value, id, if last then ReqApproved else ReqPending, [Approval(round, approver, GaveApproval)])
                 && (if last then Applies(s, d, next.value, id) else NothingApplied(d, next.value)))
  {
  }

  /** With all approvals in one round, the request is approved and applied exactly at the approval that
      makes as many as the most demanding detail asks for: where each asks for one, at the first. */
  lemma OneRoundConcludes(s: Setting, d: Desk, id: Id, user: User, n: nat)
    requires Inv(s, d) && Approve(s, d, id, user).Success? && n >= 1
    requires id in d.requests ==>
      && (RuleOf(s, d, id).Some? ==> RuleOf(s, d, id).value.maxApprovalRounds <= 1)
      && (forall x :: x in DetailsOf(RuleOf(s, d, id)) ==> x.round == 1 && x.requiredCount <= n)
      && (n == 1 || exists x :: x in DetailsOf(RuleOf(s, d, id)) && x.requiredCount == n)
    ensures var after := Approve(s, d, id, user).value;
            && id in d.requests && id in after.requests
            && |after.requests[id].approvals| == |d.requests[id].approvals| + 1 <= n
            && (after.requests[id].status.ReqApproved? <==> |after.requests[id].approvals| == n)
            && after.applied == d.applied + (if |after.requests[id].approvals| == n then [id] else [])
  {
    ApproveIff(s, d, id, user);
    OneRoundAsksFor(RuleOf(s, d, id), n);
    assert RequestOk(s, d, d.requests[id]);
    ApprovalsSoFar(RuleOf(s, d, id), d.requests[id].approvals, RoundOf(s, d, id));
  }

  // ── The other decisions ──

  /** A rejection is accepted from whoever may decide. */
  lemma RejectIff(s: Setting, d: Desk, id: Id, user: User)
    ensures var r := Reject(s, d, id, user);
            && (r.Success? <==> IsPending(d, id) && MayDecide(s, d, d.requests[id], user))
            && (r.Success? ==>
                 && NothingApplied(d, r.value)
                 && Decides(d, r.value, id, ReqRejected, [Approval(RoundOf(s, d, id), user.id, GaveRejection)]))
  {
    if IsPending(d, id) { ApproverIff(s, d, d.requests[id], user); }
  }

  /** Only a super administrator forces a decision, and a forced approval needs no rounds. */
  lemma ForceIff(s: Setting, d: Desk, id: Id, user: User)
    ensures var r := ForceApprove(s, d, id, user);
            && (r.Success? <==> user.access.SuperAdmin? && IsPending(d, id) && CanApply(s, d, id))
            && (r.Success? ==>
                 && Applies(s, d, r.value, id)
                 && Decides(d, r.value, id, ReqApproved, [Approval(0, user.id, ForcedApproval)]))
    ensures var r := ForceReject(s, d, id, user);
            && (r.Success? <==> user.access.SuperAdmin? && IsPending(d, id))
            && (r.Success? ==>
                 && NothingApplied(d, r.value)
                 && Decides(d, r.value, id, ReqRejected, [Approval(0, user.id, ForcedRejection)]))
  {
  }

  /** Only the requester takes a pending request back, and nothing is recorded. */
  lemma CancelIff(d: Desk, id: Id, user: User)
    ensures var r := Cancel(d, id, user);
            && (r.Success? <==> IsPending(d, id) && d.requests[id].requester == user.id)
            && (r.Success? ==> NothingApplied(d, r.value) && Decides(d, r.value, id, ReqCancelled, []))
  {
    if IsPending(d, id) {
      assert d.requests[id].approvals + [] == d.requests[id].approvals;
    }
  }

  /** Only the requester edits a pending request, within its kind and if it could be handed in like that;
      only its payload changes, the document's body with it. */
  lemma EditIff(s: Setting, d: Desk, id: Id, p: Payload, user: User)
    ensures var r := Edit(s, d, id, p, user);
            && (r.Success? <==>
                 && IsPending(d, id) && d.requests[id].requester == user.id && KindOf(p) == KindOf(d.requests[id].payload)
                 && Prevalidate(s, d.ledger, user.id, p).Pass?)
            && (r.Success? ==>
                 && NothingApplied(d, r.value) && r.value.requests == d.requests[id := d.requests[id].(payload := p)]
                 && r.value.docs.Keys == d.docs.Keys
                 && forall x :: x in d.docs ==>
                      r.value.docs[x] == if d.requests[id].document == Some(x) then d.docs[x].(content := p) else d.docs[x])
  {
  }

  // ── Handing in ──

  /** Who a step is for: the holder of its position, else the department's administrator unless that is the
      requester, else another administrator; nobody if there is none of these. */
  ghost predicate IsFor(dir: Directory, requester: Id, j: nat, a: Option<Id>) {
    if j < |dir.byDetail| && dir.byDetail[j].Some? then a == dir.byDetail[j]
    else if dir.department.Some? && dir.department != Some(requester) then a == dir.department
    else a == dir.admin
  }

  /** The line has a step for each round asked for, in order, the steps of round 1 pending; there is no line
      exactly if some step is for nobody. */
  lemma {:induction false} LineIsFor(rounds: seq<int>, dir: Directory, requester: Id)
    ensures var r := BuildLine(rounds, dir, requester);
            && (r.Failure? <==> exists j :: 0 <= j < |rounds| && IsFor(dir, requester, j, None))
            && (r.Success? ==>
                 && |r.value| == |rounds|
                 && forall j :: 0 <= j < |rounds| ==>
                   && r.value[j].round == rounds[j] && (r.value[j].isPending <==> rounds[j] == 1)
                   && IsFor(dir, requester, j, Some(r.value[j].assignee)))
    decreases |rounds|
  {
    if rounds != [] {
      var n := |rounds| - 1;
      LineIsFor(rounds[..n], dir, requester);
      var holder := if n < |dir.byDetail| then dir.byDetail[n] else None;
      assert IsFor(dir, requester, n, Assignee(holder, dir, requester));
      if exists j :: 0 <= j < n && IsFor(dir, requester, j, None) {
        var j :| 0 <= j < n && IsFor(dir, requester, j, None);
        assert 0 <= j < |rounds|;
      }
    }
  }

  predicate IsAuto(rule: Option<Rule>) {
    rule.Some? && rule.value.isAutoApprove
  }

  /** A request is accepted exactly if it passes its check, its effect goes through where it is approved at
      once, and its line has an approver for every step where it has one; it is stored as asked for. */
  lemma CreateIff(s: Setting, d: Desk, requester: Id, p: Payload, hasForm: bool, dir: Directory)
    ensures var r, auto := Create(s, d, requester, p, hasForm, dir), IsAuto(RuleFor(s, p));
            && (r.Success? <==>
                 && Prevalidate(s, d.ledger, requester, p).Pass?
                 && (auto ==> ApplyApproved(s, d.ledger, d.faults, requester, p).Success?)
                 && (!auto && hasForm ==> BuildLine(DetailRounds(RuleFor(s, p)), dir, requester).Success?))
            && (r.Success? ==>
                 && r.value.nextRequest == d.nextRequest + 1
                 && r.value.requests == d.requests[d.nextRequest :=
                      Request(requester, p, if auto then ReqApproved else ReqPending,
                              if !auto && hasForm then Some(d.nextDoc) else None, [])]
                 && (!auto && hasForm ==> r.value.docs == d.docs[d.nextDoc :=
                      HrDoc(ReqPending, p, BuildLine(DetailRounds(RuleFor(s, p)), dir, requester).value)])
                 && (if auto then r.value.applied == d.applied + [d.nextRequest] &&
                        ApplyApproved(s, d.ledger, d.faults, requester, p) == Success(r.value.ledger)
                     else NothingApplied(d, r.value)))
  {
  }

  // ── Nobody decides on their own request ──

  ghost predicate NotOwn(r: Request) {
    forall i :: 0 <= i < |r.approvals| ==>
      r.approvals[i].verdict.ForcedApproval? || r.approvals[i].verdict.ForcedRejection? || r.approvals[i].approver != r.requester
  }

  ghost predicate NoneOwn(d: Desk) {
    forall id :: id in d.requests ==> NotOwn(d.requests[id])
  }

  lemma DecidesNotOwn(d: Desk, d': Desk, id: Id, status: RequestStatus, entries: seq<Approval>)
    requires NoneOwn(d) && Decides(d, d', id, status, entries) && |entries| <= 1
    requires |entries| == 1 ==>
      entries[0].verdict.ForcedApproval? || entries[0].verdict.ForcedRejection? || entries[0].approver != d.requests[id].requester
    ensures NoneOwn(d')
  {
    forall x | x in d'.requests ensures NotOwn(d'.requests[x]) {
      assert x in d.requests && NotOwn(d.requests[x]);
    }
  }

  lemma ApproveNotOwn(s: Setting, d: Desk, id: Id, user: User)
    requires Inv(s, d) && NoneOwn(d) && Approve(s, d, id, user).Success?
    ensures NoneOwn(Approve(s, d, id, user).value)
  {
    ApproveIff(s, d, id, user);
    DecidesNotOwn(d, Approve(s, d, id, user).value, id, if IsLastApproval(s, d, id) then ReqApproved else ReqPending,
                  [Approval(RoundOf(s, d, id), user.id, GaveApproval)]);
  }

  lemma {:induction false} BulkNotOwn(s: Setting, d: Desk, ids: seq<Id>, user: User)
    requires Inv(s, d) && NoneOwn(d)
    ensures NoneOwn(BulkApprove(s, d, ids, user).0)
    decreases |ids|
  {
    if ids != [] {
      var n := |ids| - 1;
      BulkNotOwn(s, d, ids[..n], user);
      BulkKeepsInv(s, d, ids[..n], user);
      var before := BulkApprove(s, d, ids[..n], user).0;
      if Approve(s, before, ids[n], user).Success? { ApproveNotOwn(s, before, ids[n], user); }
    }
  }

  lemma CreateNotOwn(s: Setting, d: Desk, requester: Id, p: Payload, hasForm: bool, dir: Directory)
    requires NoneOwn(d) && Create(s, d, requester, p, hasForm, dir).Success?
    ensures NoneOwn(Create(s, d, requester, p, hasForm, dir).value)
  {
    CreateIff(s, d, requester, p, hasForm, dir);
  }

  lemma EditNotOwn(s: Setting, d: Desk, id: Id, p: Payload, user: User)
    requires NoneOwn(d) && Edit(s, d, id, p, user).Success?
    ensures NoneOwn(Edit(s, d, id, p, user).value)
  {
    EditIff(s, d, id, p, user);
    assert NotOwn(d.requests[id]);
  }

  lemma PerformNotOwn(s: Setting, d: Desk, op: Operation)
    requires Inv(s, d) && NoneOwn(d) && Perform(s, d, op).Success?
    ensures NoneOwn(Perform(s, d, op).value)
  {
    var d' := Perform(s, d, op).value;
    match op
    case OpCreate(e, p, f, dir) => CreateNotOwn(s, d, e, p, f, dir);
    case OpApprove(id, u) => ApproveNotOwn(s, d, id, u);
    case OpReject(id, u) =>
      RejectIff(s, d, id, u);
      DecidesNotOwn(d, d', id, ReqRejected, [Approval(RoundOf(s, d, id), u.id, GaveRejection)]);
    case OpForceApprove(id, u) =>
      ForceIff(s, d, id, u);
      DecidesNotOwn(d, d', id, ReqApproved, [Approval(0, u.id, ForcedApproval)]);
    case OpForceReject(id, u) =>
      ForceIff(s, d, id, u);
      DecidesNotOwn(d, d', id, ReqRejected, [Approval(0, u.id, ForcedRejection)]);
    case OpCancel(id, u) =>
      CancelIff(d, id, u);
      DecidesNotOwn(d, d', id, ReqCancelled, []);
    case OpEdit(id, p, u) => EditNotOwn(s, d, id, p, u);
    case OpBulkApprove(ids, u) => BulkNotOwn(s, d, ids, u);
    case _ =>
  }

  /** Over every run, nobody but a super administrator by force decides on a request of their own. */
  lemma {:induction false} NobodyDecidesOwn(s: Setting, ops: seq<Operation>)
    requires ValidRules(s)
    ensures NoneOwn(Run(s, ops))
    decreases |ops|
  {
    if ops != [] {
      var most, last := ops[..|ops| - 1], ops[|ops| - 1];
      NobodyDecidesOwn(s, most);
      RequestLaws.RunKeepsInv(s, most);
      if Perform(s, Run(s, most), last).Success? { PerformNotOwn(s, Run(s, most), last); }
    }
  }
}
