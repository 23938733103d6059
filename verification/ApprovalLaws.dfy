/** What holds of every document over every run of the approval actions. */
module ApprovalLaws {
  import opened Wrappers
  import opened ApprovalTypes
  import opened StepTable
  import opened ApprovalCursor
  import opened ApprovalTransitions
  import opened ApprovalRefinement

  // ── Safety over whole runs ──

  /** Whatever is called on a new draft, in whatever order and environment, the rows are what the
      counter machine says after reading the history. */
  lemma {:induction false} RunKeepsInv(drafter: Id, allow: bool, line: seq<StepInput>,
                                       calls: seq<(Operation, Env)>)
    ensures Inv(Run(CreateDraft(drafter, allow, line), calls))
    decreases |calls|
  {
    var d := CreateDraft(drafter, allow, line);
    if calls != [] {
      var most := calls[..|calls| - 1];
      RunKeepsInv(drafter, allow, line, most);
      var (op, env) := calls[|calls| - 1];
      if Perform(Run(d, most), op, env).Success? {
        PerformKeepsInv(Run(d, most), op, env);
      }
    }
  }

  /** Replaying the history over the number of flow steps rebuilds every flow status and the status
      of the document. */
  lemma HistoryIsComplete(drafter: Id, allow: bool, line: seq<StepInput>, calls: seq<(Operation, Env)>)
    ensures var d := Run(CreateDraft(drafter, allow, line), calls);
            var n, h := |FlowLine(d.steps)|, Actions(d.history);
            !d.status.DocDraft? && DistinctFlowOrders(d.steps) ==>
            && Legal(n, h)
            && FlowStatuses(d.steps) == LineOf(Replay(n, h), n)
            && d.status == StatusOf(Replay(n, h).ending)
            && |Replay(n, h).acted| == Approvals(h) - Returns(h) - Cancels(h)
  {
    RunKeepsInv(drafter, allow, line, calls);
    var d := Run(CreateDraft(drafter, allow, line), calls);
    if !d.status.DocDraft? && DistinctFlowOrders(d.steps) {
      ActedIsTally(|FlowLine(d.steps)|, Actions(d.history));
    }
  }

  lemma FlowCallGrows(d: Doc, i: nat, user: Id, env: Env, expected: Role)
    ensures ApproveFlowStep(d, i, user, env, expected).Success? ==>
              exists e :: ApproveFlowStep(d, i, user, env, expected).value.history == d.history + [e]
    ensures PreApproveStep(d, i, user, env).Success? ==>
              exists e :: PreApproveStep(d, i, user, env).value.history == d.history + [e]
  {
  }

  lemma CallGrows(d: Doc, op: Operation, env: Env)
    requires Perform(d, op, env).Success?
    ensures d.history <= Perform(d, op, env).value.history
    ensures |Perform(d, op, env).value.history| == |d.history| + if op.OpUpdate? || op.OpAddCc? then 0 else 1
  {
    match op
    case OpApprove(i, user) => FlowCallGrows(d, i, user, env, Approver);
    case OpAgree(i, user) => FlowCallGrows(d, i, user, env, Agreement);
    case OpDeptCollab(i, user) => FlowCallGrows(d, i, user, env, DeptCollaborator);
    case OpPreApprove(i, user) => FlowCallGrows(d, i, user, env, Approver);
    case _ =>
  }

  /** Successful calls that log. */
  function Logged(d: Doc, calls: seq<(Operation, Env)>): nat {
    if calls == [] then 0 else
    var most := calls[..|calls| - 1];
    var (op, env) := calls[|calls| - 1];
    Logged(d, most) +
    if Perform(Run(d, most), op, env).Success? && !op.OpUpdate? && !op.OpAddCc? then 1 else 0
  }

  /** The history is append-only: what was logged at any moment of a run is a prefix of what is logged
      later, and every later successful call but saving and adding copies has its own entry. */
  lemma {:induction false} HistoryOnlyGrows(d: Doc, calls: seq<(Operation, Env)>, more: seq<(Operation, Env)>)
    ensures var now, later := Run(d, calls), Run(d, calls + more);
            && now.history <= later.history
            && |later.history| == |now.history| + Logged(now, more)
    decreases |more|
  {
    if more == [] {
      assert calls + more == calls;
    } else {
      var n := |more| - 1;
      HistoryOnlyGrows(d, calls, more[..n]);
      assert (calls + more)[..|calls + more| - 1] == calls + more[..n];
      RunOn(d, calls, more[..n]);
      var before := Run(d, calls + more[..n]);
      if Perform(before, more[n].0, more[n].1).Success? {
        CallGrows(before, more[n].0, more[n].1);
      }
    }
  }

  /** Running on from where a run stopped. */
  lemma {:induction false} RunOn(d: Doc, calls: seq<(Operation, Env)>, more: seq<(Operation, Env)>)
    ensures Run(Run(d, calls), more) == Run(d, calls + more)
    decreases |more|
  {
    if more == [] {
      assert calls + more == calls;
    } else {
      RunOn(d, calls, more[..|more| - 1]);
      assert (calls + more)[..|calls + more| - 1] == calls + more[..|more| - 1];
    }
  }

  // ── Shapes of the flow line ──

  predicate ApprovedStatus(s: StepStatus) {
    s.Approved? || s.ProxyApproved?
  }

  /** The line reads: `k` approved steps, one step `at`, `r` steps sent back, the rest `rest`. */
  ghost predicate LineReads(line: seq<StepStatus>, k: nat, at: StepStatus, r: nat, rest: StepStatus) {
    && k + r < |line|
    && (forall x :: 0 <= x < k ==> ApprovedStatus(line[x]))
    && line[k] == at
    && (forall x :: k < x <= k + r ==> line[x].Returned?)
    && (forall x :: k + r < x < |line| ==> line[x] == rest)
  }

  /** A pending document: approved*, one pending step, sent back*, waiting*; the pending step is the
      one whose index is the number of approvals not taken back. */
  lemma PendingLine(d: Doc) returns (k: nat, r: nat)
    requires Inv(d) && DistinctFlowOrders(d.steps) && d.status.DocPending?
    ensures LineReads(FlowStatuses(d.steps), k, Pending, r, Waiting)
    ensures var h := Actions(d.history); k == Approvals(h) - Returns(h) - Cancels(h)
    ensures forall x :: 0 <= x < |FlowStatuses(d.steps)| ==>
              (FlowStatuses(d.steps)[x].Pending? <==> x == k)
  {
    FlowOkReads(d);
    ActedIsTally(|FlowLine(d.steps)|, Actions(d.history));
    k, r := |CursorOf(d).acted|, CursorOf(d).returned;
  }

  /** An approved document: all steps approved, or approved*, one pre-approved step, skipped*. */
  lemma ApprovedLine(d: Doc)
    requires Inv(d) && DistinctFlowOrders(d.steps) && d.status.DocApproved?
    ensures (forall x :: 0 <= x < |FlowStatuses(d.steps)| ==> ApprovedStatus(FlowStatuses(d.steps)[x])) ||
            exists k :: LineReads(FlowStatuses(d.steps), k, PreApproved, 0, Skipped)
  {
    FlowOkReads(d);
    var c := CursorOf(d);
    if c.ending.FinishedEarly? {
      assert LineReads(FlowStatuses(d.steps), |c.acted|, PreApproved, 0, Skipped);
    }
  }

  /** A rejected document: approved*, one rejected step, sent back*, cancelled*. */
  lemma RejectedLine(d: Doc)
    requires Inv(d) && DistinctFlowOrders(d.steps) && d.status.DocRejected?
    ensures exists k, r :: LineReads(FlowStatuses(d.steps), k, Rejected, r, Cancelled)
  {
    FlowOkReads(d);
    var c := CursorOf(d);
    assert LineReads(FlowStatuses(d.steps), |c.acted|, Rejected, c.returned, Cancelled);
  }

  /** A recalled document: nothing approved, the first step still pending. */
  lemma RecalledLine(d: Doc)
    requires Inv(d) && DistinctFlowOrders(d.steps) && d.status.DocRecalled?
    ensures exists r :: LineReads(FlowStatuses(d.steps), 0, Pending, r, Waiting)
  {
    FlowOkReads(d);
    var c := CursorOf(d);
    assert LineReads(FlowStatuses(d.steps), 0, Pending, c.returned, Waiting);
  }

  // ── The life of a document ──

  predicate Ended(s: DocStatus) {
    s.DocApproved? || s.DocRejected? || s.DocRecalled?
  }

  /** Draft, then pending, then one end that is never left; receivers move only there. */
  lemma StatusOnlyAdvances(d: Doc, op: Operation, env: Env)
    requires Inv(d) && Perform(d, op, env).Success?
    ensures var d' := Perform(d, op, env).value;
            && (d.status.DocDraft? ==> d'.status.DocDraft? || d'.status.DocPending?)
            && (d.status.DocPending? ==> d'.status.DocPending? || Ended(d'.status))
            && (Ended(d.status) ==> d'.status == d.status)
  {
    if d.status.DocPending? {
      PerformKeepsSides(d, op, env);
    }
  }

  /** A receiver row leaves WAITING exactly in the call that ends the document with an approval or a
      rejection. */
  lemma ReceiversMoveAtTheEnd(d: Doc, op: Operation, env: Env, j: nat)
    requires Inv(d) && d.status.DocPending? && Perform(d, op, env).Success?
    requires j < |d.steps| && IsReceiver(d.steps[j].role)
    ensures var d' := Perform(d, op, env).value;
            d.steps[j].status.Waiting? && j < |d'.steps| &&
            (d'.steps[j].status.Waiting? <==> d'.status.DocPending? || d'.status.DocRecalled?)
  {
    PerformKeepsSides(d, op, env);
    assert SideOk(d.status, d.steps[j]);
    assert SideOk(Perform(d, op, env).value.status, Perform(d, op, env).value.steps[j]);
  }

  // ── Who acts next, and what is enabled ──

  /** Place of the current step of a pending document. */
  ghost function CurrentStep(d: Doc): nat
    requires Inv(d) && DistinctFlowOrders(d.steps) && d.status.DocPending?
  {
    FlowOkReads(d);
    FlowLine(d.steps)[|CursorOf(d).acted|]
  }

  lemma CurrentApproverIsNext(d: Doc)
    requires Inv(d) && DistinctFlowOrders(d.steps) && d.status.DocPending?
    ensures CurrentStep(d) < |d.steps|
    ensures DeriveCurrentApprover(d) == Some(d.steps[CurrentStep(d)].assignee)
  {
    FlowOkReads(d);
    var line, c := FlowLine(d.steps), CursorOf(d);
    var current := CurrentStep(d);
    assert PendingFlowFilter()(current, d.steps[current]);
    var m := Earliest(d.steps, PendingFlowFilter()).value;
    PendingPlace(d.steps, line, c, m);
  }

  /** Nothing is approved exactly while the machine has counted nothing. */
  lemma NothingActedIff(d: Doc, line: seq<nat>, c: Cursor)
    requires Reads(d.steps, line, c) && c.ending.Running? && d.status.DocPending? && SidesOk(d)
    ensures (exists j :: 0 <= j < |d.steps| && IsActed(d.steps[j].status)) <==> |c.acted| > 0
  {
    if |c.acted| > 0 {
      assert IsActed(d.steps[line[0]].status);
    } else {
      forall j | 0 <= j < |d.steps| ensures !IsActed(d.steps[j].status) {
        assert SideOk(d.status, d.steps[j]);
        if IsFlow(d.steps[j].role) {
          var x :| 0 <= x < |line| && line[x] == j;
        }
      }
    }
  }

  /** The drafter can recall exactly while nothing is approved, which is what the phase shows. */
  lemma RecallEnabledIff(d: Doc)
    requires Inv(d) && DistinctFlowOrders(d.steps) && d.status.DocPending? && !d.managed
    ensures Recall(d, d.drafter).Success? <==> CurrentStep(d) == FlowLine(d.steps)[0]
    ensures Recall(d, d.drafter).Success? <==> DerivePhase(d) == PhaseSubmitted
  {
    FlowOkReads(d);
    NothingActedIff(d, FlowLine(d.steps), CursorOf(d));
    PlacesDistinct(d.steps, FlowLine(d.steps), CursorOf(d));
  }

  lemma ReturnByAssigneeIff(d: Doc, env: Env, line: seq<nat>, c: Cursor)
    requires Reads(d.steps, line, c) && c.ending.Running? && d.status.DocPending? && !d.managed
    requires env.prevRejectEnabled && |c.acted| < |line|
    ensures var i := line[|c.acted|];
            ReturnToPrevious(d, i, d.steps[i].assignee, env).Success? <==> |c.acted| > 0
  {
    PreviousPlace(d.steps, line, c, line[|c.acted|]);
  }

  /** The first step can never be returned; every later current step can. */
  lemma ReturnEnabledIff(d: Doc, env: Env)
    requires Inv(d) && DistinctFlowOrders(d.steps) && d.status.DocPending? && !d.managed
    requires env.prevRejectEnabled
    ensures CurrentStep(d) < |d.steps|
    ensures var i := CurrentStep(d);
            ReturnToPrevious(d, i, d.steps[i].assignee, env).Success? <==> i != FlowLine(d.steps)[0]
  {
    FlowOkReads(d);
    ReturnByAssigneeIff(d, env, FlowLine(d.steps), CursorOf(d));
    PlacesDistinct(d.steps, FlowLine(d.steps), CursorOf(d));
  }

  /** The assignee of an approved step can cancel it iff it is the step before the current one and no
      step is sent back. */
  lemma CancelEnabledIff(d: Doc, i: nat, line: seq<nat>, c: Cursor)
    requires Reads(d.steps, line, c) && c.ending.Running? && d.status.DocPending? && !d.managed
    requires i < |d.steps| && IsFlow(d.steps[i].role) && ApprovedStatus(d.steps[i].status)
    ensures CancelApproval(d, i, d.steps[i].assignee).Success? <==>
            |c.acted| > 0 && line[|c.acted| - 1] == i && c.returned == 0
  {
    if Earliest(d.steps, ActedLaterFilter(d.steps[i].order)).None? {
      CancelPlace(d.steps, line, c, i);
    } else if |c.acted| > 0 && line[|c.acted| - 1] == i && c.returned == 0 {
      CancelPlaceFree(d.steps, line, c);
    }
  }

  /** Acting on a step as a document manager of its department. */
  predicate ActsAsManager(step: Step, actor: Id, env: Env) {
    step.assignee != actor && IsDept(step.role) && step.org.Some? && (step.org.value, actor) in env.docManagers
  }

  lemma ApproverOwnsUnlessManager(d: Doc, i: nat, actor: Id, env: Env, expected: Role)
    requires ApproveFlowStep(d, i, actor, env, expected).Success?
    ensures i < |d.steps| && i < |ApproveFlowStep(d, i, actor, env, expected).value.steps|
    ensures IsOwnAction(ApproveFlowStep(d, i, actor, env, expected).value.steps[i], actor) <==>
            !ActsAsManager(d.steps[i], actor, env)
    ensures ApproveFlowStep(d, i, actor, env, expected).value.steps[i].assignee == d.steps[i].assignee
  {
    var proxy := ResolveActor(d.steps[i], actor, env).value;
    var marked := ApproveMark(d.steps, i, proxy, actor);
    assert ApproveFlowStep(d, i, actor, env, expected).value.steps[i] == marked[i];
  }

  /** Who cancels only matters for whether the approval was theirs. */
  lemma CancelByActor(d: Doc, i: nat, actor: Id)
    requires i < |d.steps|
    ensures CancelApproval(d, i, actor).Success? <==>
            IsOwnAction(d.steps[i], actor) && CancelApproval(d, i, d.steps[i].assignee).Success?
  {
  }

  // ── Proxies ──

  predicate Matches(setting: ProxySetting, principal: Id, proxy: Id) {
    setting.principal == principal && setting.proxy == proxy && setting.isActive
  }

  /** The newest active setting of a pair; settings are listed newest first. */
  ghost predicate Newest(proxies: seq<ProxySetting>, principal: Id, proxy: Id, k: nat) {
    k < |proxies| && Matches(proxies[k], principal, proxy) &&
    forall j :: 0 <= j < k ==> !Matches(proxies[j], principal, proxy)
  }

  predicate Covers(setting: ProxySetting, today: int) {
    setting.startDate <= today <= setting.endDate
  }

  lemma {:induction false} FoundIsNewest(proxies: seq<ProxySetting>, principal: Id, proxy: Id) returns (k: nat)
    ensures match FindProxy(proxies, principal, proxy)
            case None => forall j :: 0 <= j < |proxies| ==> !Matches(proxies[j], principal, proxy)
            case Some(setting) => Newest(proxies, principal, proxy, k) && proxies[k] == setting
  {
    k := 0;
    if proxies != [] && !Matches(proxies[0], principal, proxy) {
      var later := FoundIsNewest(proxies[1..], principal, proxy);
      assert forall j :: 0 < j < |proxies| ==> proxies[j] == proxies[1..][j - 1];
      k := later + 1;
    }
  }

  /** Whoever is neither the assignee nor a document manager may act exactly if the newest active setting
      between the two covers today, whatever the older ones say. */
  lemma ProxyActsIff(step: Step, actor: Id, env: Env)
    requires step.assignee != actor && !ActsAsManager(step, actor, env)
    ensures ResolveActor(step, actor, env).Success? <==>
            exists k: nat :: Newest(env.proxies, step.assignee, actor, k) && Covers(env.proxies[k], env.today)
    ensures ResolveActor(step, actor, env) == Failure(ProxyExpired) <==>
            exists k: nat :: Newest(env.proxies, step.assignee, actor, k) && !Covers(env.proxies[k], env.today)
  {
    var k := FoundIsNewest(env.proxies, step.assignee, actor);
  }

  /** A setting for the days 1 to 9 made after it hides the one for the days 1 to 30: on day 15 the proxy
      is refused. */
  lemma ValidProxyRefused()
    ensures var month, week := ProxySetting(1, 2, true, 1, 30), ProxySetting(1, 2, true, 1, 9);
            var step := Step(Approver, 1, None, 0, Pending, false, None);
            && Covers(month, 15)
            && ResolveActor(step, 2, Env({}, [month], 15, false)) == Success(true)
            && ResolveActor(step, 2, Env({}, [week, month], 15, false)) == Failure(ProxyExpired)
  {
  }

  // ── Undo laws ──

  /** Flow statuses before and after, when both read along the same line. */
  lemma StatusesAlong(d: Doc, rows: seq<Step>, c: Cursor, c': Cursor)
    requires Reads(d.steps, FlowLine(d.steps), c) && Reads(rows, FlowLine(d.steps), c')
    requires SameSkeleton(d.steps, rows)
    ensures FlowLine(rows) == FlowLine(d.steps)
    ensures FlowStatuses(d.steps) == LineOf(c, |FlowLine(d.steps)|)
    ensures FlowStatuses(rows) == LineOf(c', |FlowLine(d.steps)|)
  {
    FlowLineStable(d.steps, rows);
  }

  lemma SkeletonThrough(a: seq<Step>, b: seq<Step>, c: seq<Step>)
    requires SameSkeleton(a, b) && SameSkeleton(b, c)
    ensures SameSkeleton(a, c)
  {
  }

  lemma ReturnThenApproveReads(d: Doc, i: nat, actor: Id, env: Env, back: Doc,
                               j: nat, actor2: Id, env2: Env, expected: Role, again: Doc,
                               line: seq<nat>, c: Cursor) returns (proxy: bool)
    requires Reads(d.steps, line, c) && StatusOf(c.ending) == d.status && IsFlow(expected)
    requires ReturnToPrevious(d, i, actor, env) == Success(back)
    requires ApproveFlowStep(back, j, actor2, env2, expected) == Success(again)
    ensures again.status.DocPending? && SameSkeleton(d.steps, again.steps)
    ensures |c.acted| > 0 && line[|c.acted| - 1] == j
    ensures Reads(again.steps, line, c.(acted := c.acted[..|c.acted| - 1] + [proxy]))
  {
    ReturnMoves(d, i, actor, env, line, c);
    var c1 := Feed(c, |line|, DidReturnPrev);
    PendingPlace(back.steps, line, c1, j);
    var a := ApproveMoves(back, j, actor2, env2, expected, line, c1);
    ReturnThenApprove(c, |line|, a);
    SkeletonThrough(d.steps, back.steps, again.steps);
    proxy := a.DidProxyApprove?;
  }

  /** Two lines that differ in who approved place `k`. */
  lemma LineUpToApprover(c: Cursor, n: nat, k: nat, proxy: bool)
    requires |c.acted| == k + 1 && k < n
    ensures var was, now := LineOf(c, n), LineOf(c.(acted := c.acted[..k] + [proxy]), n);
            ApprovedStatus(was[k]) && now == was[k := now[k]] && ApprovedStatus(now[k])
  {
  }

  lemma StatusesUpToApprover(d: Doc, rows: seq<Step>, c: Cursor, k: nat, proxy: bool)
    requires Reads(d.steps, FlowLine(d.steps), c) && SameSkeleton(d.steps, rows) && |c.acted| == k + 1
    requires Reads(rows, FlowLine(d.steps), c.(acted := c.acted[..k] + [proxy]))
    ensures FlowLine(rows) == FlowLine(d.steps) && k < |FlowLine(d.steps)|
    ensures var was, now := FlowStatuses(d.steps), FlowStatuses(rows);
            ApprovedStatus(was[k]) && ApprovedStatus(now[k]) && now == was[k := now[k]]
  {
    StatusesAlong(d, rows, c, c.(acted := c.acted[..k] + [proxy]));
    LineUpToApprover(c, |FlowLine(d.steps)|, k, proxy);
  }

  /** Returning to the previous step and approving again restores every flow status, up to who
      approved the step returned to. */
  lemma ReturnThenApproveRestores(d: Doc, i: nat, actor: Id, env: Env, back: Doc,
                                  j: nat, actor2: Id, env2: Env, expected: Role, again: Doc)
    returns (k: nat)
    requires Inv(d) && DistinctFlowOrders(d.steps) && IsFlow(expected)
    requires ReturnToPrevious(d, i, actor, env) == Success(back)
    requires ApproveFlowStep(back, j, actor2, env2, expected) == Success(again)
    ensures again.status.DocPending? && FlowLine(again.steps) == FlowLine(d.steps)
    ensures k < |FlowLine(d.steps)| && FlowLine(d.steps)[k] == j
    ensures var was, now := FlowStatuses(d.steps), FlowStatuses(again.steps);
            ApprovedStatus(was[k]) && ApprovedStatus(now[k]) && now == was[k := now[k]]
  {
    FlowOkReads(d);
    var line, c := FlowLine(d.steps), CursorOf(d);
    var proxy := ReturnThenApproveReads(d, i, actor, env, back, j, actor2, env2, expected, again, line, c);
    k := |c.acted| - 1;
    StatusesUpToApprover(d, again.steps, c, k, proxy);
  }

  /** Cancelling right after a non-final approval: when it is enabled, and what the machine shows. */
  lemma ApproveThenCancelReads(d: Doc, i: nat, actor: Id, env: Env, expected: Role, on: Doc,
                               line: seq<nat>, c: Cursor)
    requires Reads(d.steps, line, c) && StatusOf(c.ending) == d.status && IsFlow(expected)
    requires ApproveFlowStep(d, i, actor, env, expected) == Success(on) && on.status.DocPending?
    ensures |c.acted| + 1 < |line| && line[|c.acted|] == i && i < |on.steps|
    ensures var r := CancelApproval(on, i, on.steps[i].assignee);
            (r.Success? <==> c.returned <= 1) &&
            (r.Success? ==> r.value.status.DocPending? && SameSkeleton(d.steps, r.value.steps) &&
                            Reads(r.value.steps, line, c.(returned := 0)))
  {
    PendingPlace(d.steps, line, c, i);
    var a := ApproveMoves(d, i, actor, env, expected, line, c);
    var c1 := Feed(c, |line|, a);
    assert |c.acted| + 1 < |line|;
    ApproveThenCancel(c, |line|, a);
    assert on.steps[line[|c.acted|]].status == StatusAt(c1, |c.acted|);
    CancelEnabledIff(on, i, line, c1);
    if CancelApproval(on, i, on.steps[i].assignee).Success? {
      CancelMoves(on, i, on.steps[i].assignee, line, c1);
    }
  }

  /** The line without its steps sent back, when there was at most one. */
  lemma LineUpToReturned(c: Cursor, n: nat)
    requires c.ending.Running? && |c.acted| + 1 + c.returned <= n && |c.acted| + 1 < n
    ensures c.returned <= 1 <==> forall x :: |c.acted| + 1 < x < n ==> !LineOf(c, n)[x].Returned?
    ensures c.returned <= 1 ==>
      LineOf(c.(returned := 0), n) == LineOf(c, n)[|c.acted| + 1 := Waiting]
  {
    if c.returned > 1 {
      assert LineOf(c, n)[|c.acted| + 2].Returned?;
    }
  }

  /** A non-final approval can be cancelled by the assignee iff no step beyond the one it activated
      is sent back; then every flow status is as before, except that the activated step waits. */
  lemma ApproveThenCancelRestores(d: Doc, i: nat, actor: Id, env: Env, expected: Role, on: Doc)
    returns (k: nat)
    requires Inv(d) && DistinctFlowOrders(d.steps) && IsFlow(expected)
    requires ApproveFlowStep(d, i, actor, env, expected) == Success(on) && on.status.DocPending?
    ensures k + 1 < |FlowLine(d.steps)| && FlowLine(d.steps)[k] == i && i < |on.steps|
    ensures var r, was := CancelApproval(on, i, on.steps[i].assignee), FlowStatuses(d.steps);
            && (r.Success? <==> forall x :: k + 1 < x < |was| ==> !was[x].Returned?)
            && (r.Success? ==> r.value.status.DocPending? &&
                               FlowStatuses(r.value.steps) == was[k + 1 := Waiting])
  {
    FlowOkReads(d);
    var line, c := FlowLine(d.steps), CursorOf(d);
    k := |c.acted|;
    ApproveThenCancelReads(d, i, actor, env, expected, on, line, c);
    LineUpToReturned(c, |line|);
    StatusesAlong(d, d.steps, c, c);
    var r := CancelApproval(on, i, on.steps[i].assignee);
    if r.Success? {
      StatusesAlong(d, r.value.steps, c, c.(returned := 0));
    }
  }

  /** Whoever gave a non-final approval can take it back iff they did not act as a department's document
      manager and no step beyond the one they activated is sent back. */
  lemma ApproverCancelsIff(d: Doc, i: nat, actor: Id, env: Env, expected: Role, on: Doc)
    returns (k: nat)
    requires Inv(d) && DistinctFlowOrders(d.steps) && IsFlow(expected)
    requires ApproveFlowStep(d, i, actor, env, expected) == Success(on) && on.status.DocPending?
    ensures k + 1 < |FlowLine(d.steps)| && FlowLine(d.steps)[k] == i && i < |d.steps|
    ensures CancelApproval(on, i, actor).Success? <==>
            !ActsAsManager(d.steps[i], actor, env) &&
            forall x :: k + 1 < x < |FlowStatuses(d.steps)| ==> !FlowStatuses(d.steps)[x].Returned?
  {
    k := ApproveThenCancelRestores(d, i, actor, env, expected, on);
    ApproverOwnsUnlessManager(d, i, actor, env, expected);
    CancelByActor(on, i, actor);
  }

  /** A department's step, assigned to 2 and approved by the department's document manager 5, followed by
      an approver: 5 cannot take the approval back, though 2 could. */
  lemma ManagerCannotCancel()
    ensures var line := [StepInput(DeptCollaborator, 2, Some(7), 0), StepInput(Approver, 3, None, 1)];
            var env := Env({(7, 5)}, [], 0, true);
            var submitted := Submit(CreateDraft(9, false, []), line, 9);
            && submitted.Success?
            && var approved := ApproveFlowStep(submitted.value, 0, 5, env, DeptCollaborator);
               && approved.Success?
               && CancelApproval(approved.value, 0, 5) == Failure(StepNotAssignee)
               && CancelApproval(approved.value, 0, 2).Success?
  {
    var line := [StepInput(DeptCollaborator, 2, Some(7), 0), StepInput(Approver, 3, None, 1)];
    var env := Env({(7, 5)}, [], 0, true);
    var first := Step(DeptCollaborator, 2, Some(7), 0, Pending, false, None);
    var second := Step(Approver, 3, None, 1, Waiting, false, None);
    SubmitTwo(line, first, second);
    var d := Submit(CreateDraft(9, false, []), line, 9).value;
    ManagerApproves(d, env, first, second);
  }

  lemma SubmitTwo(line: seq<StepInput>, first: Step, second: Step)
    requires line == [StepInput(DeptCollaborator, 2, Some(7), 0), StepInput(Approver, 3, None, 1)]
    requires first == Step(DeptCollaborator, 2, Some(7), 0, Pending, false, None)
    requires second == Step(Approver, 3, None, 1, Waiting, false, None)
    ensures Submit(CreateDraft(9, false, []), line, 9) ==
            Success(Doc(DocPending, false, 9, false, [first, second], [Entry(None, 9, DidSubmit)]))
  {
    var drafts := DraftRows(line);
    assert IsFlow(line[0].role);
    assert FlowFilter()(0, drafts[0]) && FlowFilter()(1, drafts[1]);
    var e := Earliest(drafts, FlowFilter()).value;
    assert drafts[e].order <= drafts[0].order;
    assert drafts[e].order == 0 && FirstFlowOrder(drafts) == Some(0);
    var rows := SubmitRows(line);
    assert rows[0] == first && rows[1] == second;
    assert rows == [first, second];
    assert !exists j :: 0 <= j < |line| && line[j].role.Approver? && line[j].assignee == 9;
    assert [] + [Entry(None, 9, DidSubmit)] == [Entry(None, 9, DidSubmit)];
  }

  lemma ManagerApproves(d: Doc, env: Env, first: Step, second: Step)
    requires first == Step(DeptCollaborator, 2, Some(7), 0, Pending, false, None)
    requires second == Step(Approver, 3, None, 1, Waiting, false, None)
    requires d.steps == [first, second] && d.status.DocPending? && !d.managed && env.docManagers == {(7, 5)}
    ensures var approved := ApproveFlowStep(d, 0, 5, env, DeptCollaborator);
            && approved.Success?
            && CancelApproval(approved.value, 0, 5) == Failure(StepNotAssignee)
            && CancelApproval(approved.value, 0, 2).Success?
  {
    assert d.steps[0] == first && d.steps[1] == second;
    var i: nat, j: nat := 0, 1;
    assert j != i && IsFlow(d.steps[j].role) && d.steps[j].status.Waiting?;
    assert NextFilter(i)(j, d.steps[j]);
    assert Earliest(d.steps, NextFilter(i)) == Some(j);
    var on := ApproveFlowStep(d, 0, 5, env, DeptCollaborator).value;
    assert on.steps[0] == first.(status := Approved) && on.steps[1] == second.(status := Pending);
    assert forall j :: 0 <= j < |on.steps| ==> !ActedLaterFilter(0)(j, on.steps[j]);
  }

  // ── Progress ──

  predicate IsApprovalOp(op: Operation) {
    op.OpApprove? || op.OpAgree? || op.OpDeptCollab?
  }

  function Successes(d: Doc, calls: seq<(Operation, Env)>): nat {
    if calls == [] then 0 else
    var most := calls[..|calls| - 1];
    var (op, env) := calls[|calls| - 1];
    Successes(d, most) + if Perform(Run(d, most), op, env).Success? then 1 else 0
  }

  lemma ApprovalOpMoves(d: Doc, op: Operation, env: Env, line: seq<nat>, c: Cursor)
    returns (a: HistoryAction)
    requires Reads(d.steps, line, c) && StatusOf(c.ending) == d.status
    requires IsApprovalOp(op) && Perform(d, op, env).Success?
    ensures d.status.DocPending? && |c.acted| < |line|
    ensures IsApproval(a) && Moves(d, Perform(d, op, env).value, a, line, c)
  {
    PendingPlace(d.steps, line, c, op.step);
    match op
    case OpApprove(i, user) => a := ApproveMoves(d, i, user, env, Approver, line, c);
    case OpAgree(i, user) => a := ApproveMoves(d, i, user, env, Agreement, line, c);
    case OpDeptCollab(i, user) => a := ApproveMoves(d, i, user, env, DeptCollaborator, line, c);
  }

  /** Calling approvals only, by anyone and with any failures between: with `k` of `n` steps approved,
      at most n - k calls succeed, and the document is approved exactly after the (n - k)-th. */
  lemma {:induction false} ApprovalsAlong(d: Doc, calls: seq<(Operation, Env)>, line: seq<nat>, c: Cursor)
    returns (c': Cursor)
    requires Reads(d.steps, line, c) && c.ending.Running? && d.status.DocPending?
    requires forall i :: 0 <= i < |calls| ==> IsApprovalOp(calls[i].0)
    ensures var left, d', s := |line| - |c.acted|, Run(d, calls), Successes(d, calls);
            && s <= left
            && d'.status == (if s == left then DocApproved else DocPending)
            && Reads(d'.steps, line, c') && StatusOf(c'.ending) == d'.status
            && |c'.acted| == |c.acted| + s
    decreases |calls|
  {
    if calls == [] {
      c' := c;
    } else {
      var most := calls[..|calls| - 1];
      c' := ApprovalsAlong(d, most, line, c);
      var before := Run(d, most);
      var (op, env) := calls[|calls| - 1];
      assert IsApprovalOp(op);
      if Perform(before, op, env).Success? {
        var a := ApprovalOpMoves(before, op, env, line, c');
        c' := Feed(c', |line|, a);
      }
    }
  }

  /** The same, counted on the rows: `k` is the place of the pending step. */
  lemma ApprovedAtTheLastStep(d: Doc, calls: seq<(Operation, Env)>, k: nat)
    requires Inv(d) && DistinctFlowOrders(d.steps) && d.status.DocPending?
    requires k < |FlowStatuses(d.steps)| && FlowStatuses(d.steps)[k].Pending?
    requires forall i :: 0 <= i < |calls| ==> IsApprovalOp(calls[i].0)
    ensures Successes(d, calls) <= |FlowStatuses(d.steps)| - k
    ensures Run(d, calls).status ==
            if Successes(d, calls) == |FlowStatuses(d.steps)| - k then DocApproved else DocPending
  {
    FlowOkReads(d);
    var c' := ApprovalsAlong(d, calls, FlowLine(d.steps), CursorOf(d));
    StatusesAlong(d, d.steps, CursorOf(d), CursorOf(d));
  }

  /** The approval of the current step by its assignee is always enabled. */
  lemma CurrentApprovalEnabled(d: Doc, env: Env) returns (op: Operation)
    requires Inv(d) && DistinctFlowOrders(d.steps) && d.status.DocPending? && !d.managed
    ensures IsApprovalOp(op) && Perform(d, op, env).Success?
  {
    FlowOkReads(d);
    var i := CurrentStep(d);
    assert i < |d.steps| && IsFlow(d.steps[i].role) && d.steps[i].status.Pending?;
    var step := d.steps[i];
    if step.role.Approver? {
      op := OpApprove(i, step.assignee);
    } else if step.role.Agreement? {
      op := OpAgree(i, step.assignee);
    } else {
      op := OpDeptCollab(i, step.assignee);
    }
  }
}
