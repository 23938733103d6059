/**
 * The rows of a document, read in stepOrder, are always what the counter machine says after
 * reading the history: every action of the service is one step of the machine.
 */
module ApprovalRefinement {
  import opened Wrappers
  import opened ApprovalTypes
  import opened StepTable
  import opened ApprovalCursor
  import opened ApprovalTransitions

  // ── The invariant ──

  /** What a step outside the flow may be, given the status of its document. */
  predicate SideOk(status: DocStatus, s: Step) {
    if IsFlow(s.role) then true
    else if IsReceiver(s.role) then
      match status {
        case DocPending | DocRecalled => s.status.Waiting?
        case DocApproved =>
          s.status.Pending? || s.status.Received? || (s.role.DeptReceiver? && s.status.Bounced?)
        case DocRejected => s.status.Cancelled?
        case _ => false
      }
    else s.status.Pending? || s.status.Viewed?
  }

  predicate SidesOk(d: Doc) {
    forall j :: 0 <= j < |d.steps| ==> SideOk(d.status, d.steps[j])
  }

  /** The rows agree with machine state `c`. */
  ghost predicate Follows(d: Doc, c: Cursor) {
    && StatusOf(c.ending) == d.status
    && FlowStatuses(d.steps) == LineOf(c, |FlowLine(d.steps)|)
  }

  ghost predicate FlowOk(d: Doc) {
    var n := |FlowLine(d.steps)|;
    && n > 0
    && Legal(n, Actions(d.history))
    && Follows(d, Replay(n, Actions(d.history)))
  }

  /** The invariant of every document. Ties among flow orders void the part about the flow line. */
  ghost predicate Inv(d: Doc) {
    if d.status.DocDraft? then
      d.history == [] && forall j :: 0 <= j < |d.steps| ==> d.steps[j].status.Waiting?
    else
      && !d.status.DocCancelled?
      && SidesOk(d)
      && (DistinctFlowOrders(d.steps) ==> FlowOk(d))
  }

  /** The machine state of a submitted document. */
  ghost function CursorOf(d: Doc): Cursor
    requires FlowOk(d)
  {
    Replay(|FlowLine(d.steps)|, Actions(d.history))
  }

  // ── Reading rows through the machine ──

  /** `line` lists the flow rows by strictly increasing stepOrder, and row `line[x]` has the status
      that machine state `c` gives place `x`. */
  ghost predicate Reads(steps: seq<Step>, line: seq<nat>, c: Cursor) {
    && Within(line, |steps|)
    && (forall x, y :: 0 <= x < y < |line| ==> steps[line[x]].order < steps[line[y]].order)
    && (forall x :: 0 <= x < |line| ==> IsFlow(steps[line[x]].role))
    && (forall x :: 0 <= x < |line| ==> steps[line[x]].status == StatusAt(c, x))
    && (forall j :: 0 <= j < |steps| && IsFlow(steps[j].role) ==> j in line)
    && WellFormed(c, |line|)
  }

  /** The rows of a document read as the machine says, and it is the machine of its history. */
  lemma FlowOkReads(d: Doc)
    requires DistinctFlowOrders(d.steps) && FlowOk(d)
    ensures Reads(d.steps, FlowLine(d.steps), CursorOf(d))
    ensures StatusOf(CursorOf(d).ending) == d.status
  {
    var line := FlowLine(d.steps);
    LegalWellFormed(|line|, Actions(d.history));
    FlowLineSorted(d.steps);
    forall x | 0 <= x < |line|
      ensures IsFlow(d.steps[line[x]].role) && d.steps[line[x]].status == StatusAt(CursorOf(d), x)
    {
      assert line[x] in line;
      assert FlowStatuses(d.steps)[x] == LineOf(CursorOf(d), |line|)[x];
    }
    forall x, y | 0 <= x < y < |line| ensures d.steps[line[x]].order < d.steps[line[y]].order {
      FlowLineStrict(d.steps, x, y);
    }
  }

  ghost predicate SameSkeleton(s: seq<Step>, t: seq<Step>) {
    |s| == |t| && forall j :: 0 <= j < |s| ==> s[j].role == t[j].role && s[j].order == t[j].order
  }

  /** `d'` is `d` after an action the machine reads as `a`. */
  ghost predicate Moves(d: Doc, d': Doc, a: HistoryAction, line: seq<nat>, c: Cursor) {
    && SameSkeleton(d.steps, d'.steps)
    && (exists step, actor :: d'.history == d.history + [Entry(step, actor, a)])
    && Enabled(c, a)
    && Reads(d'.steps, line, Feed(c, |line|, a))
    && StatusOf(Feed(c, |line|, a).ending) == d'.status
  }

  /** A move of the rows is a move of the machine. */
  lemma Advance(d: Doc, d': Doc, a: HistoryAction)
    requires FlowOk(d) && Moves(d, d', a, FlowLine(d.steps), CursorOf(d))
    ensures FlowOk(d') && FlowLine(d'.steps) == FlowLine(d.steps)
    ensures CursorOf(d') == Feed(CursorOf(d), |FlowLine(d.steps)|, a)
  {
    FlowLineStable(d.steps, d'.steps);
    var n := |FlowLine(d.steps)|;
    assert Actions(d'.history) == Actions(d.history) + [a];
    ReplayNext(n, Actions(d.history), a);
    assert FlowStatuses(d'.steps) == LineOf(Replay(n, Actions(d'.history)), n);
  }

  // ── Where the actions find their steps ──

  /** A pending flow step is the one after the approved ones. */
  lemma PendingPlace(steps: seq<Step>, line: seq<nat>, c: Cursor, i: nat)
    requires Reads(steps, line, c) && c.ending.Running?
    requires i < |steps| && IsFlow(steps[i].role) && steps[i].status.Pending?
    ensures |c.acted| < |line| && line[|c.acted|] == i
  {
    var x :| 0 <= x < |line| && line[x] == i;
  }

  /** The step activated next is the one right after, and there is one iff the line goes on. */
  lemma NextPlace(steps: seq<Step>, line: seq<nat>, c: Cursor, i: nat)
    requires Reads(steps, line, c) && c.ending.Running?
    requires i < |steps| && |c.acted| < |line| && line[|c.acted|] == i
    ensures Earliest(steps, NextFilter(i)) ==
            if |c.acted| + 1 < |line| then Some(line[|c.acted| + 1]) else None
  {
    var k, next := |c.acted|, Earliest(steps, NextFilter(i));
    if next.Some? { NextIsLater(steps, line, c, i, next.value); }
    if k + 1 < |line| {
      assert NextFilter(i)(line[k + 1], steps[line[k + 1]]);
    }
  }

  lemma NextIsLater(steps: seq<Step>, line: seq<nat>, c: Cursor, i: nat, j: nat)
    requires Reads(steps, line, c) && c.ending.Running?
    requires i < |steps| && |c.acted| < |line| && line[|c.acted|] == i
    requires j < |steps| && NextFilter(i)(j, steps[j])
    ensures exists y :: |c.acted| < y < |line| && line[y] == j
  {
    var y :| 0 <= y < |line| && line[y] == j;
    assert y > |c.acted|;
  }

  /** The step returned to is the last approved one. */
  lemma PreviousPlace(steps: seq<Step>, line: seq<nat>, c: Cursor, i: nat)
    requires Reads(steps, line, c) && c.ending.Running?
    requires i < |steps| && |c.acted| < |line| && line[|c.acted|] == i
    ensures Latest(steps, PreviousFilter(steps[i].order)) ==
            if |c.acted| > 0 then Some(line[|c.acted| - 1]) else None
  {
    var k, previous := |c.acted|, Latest(steps, PreviousFilter(steps[i].order));
    if previous.Some? {
      var y :| 0 <= y < |line| && line[y] == previous.value;
      assert y < k;
    }
    if k > 0 {
      assert PreviousFilter(steps[i].order)(line[k - 1], steps[line[k - 1]]);
    }
  }

  /** No step after the last approved one has acted if none was sent back. */
  lemma CancelPlaceFree(steps: seq<Step>, line: seq<nat>, c: Cursor)
    requires Reads(steps, line, c) && c.ending.Running? && |c.acted| > 0 && c.returned == 0
    ensures Earliest(steps, ActedLaterFilter(steps[line[|c.acted| - 1]].order)).None?
  {
    var k, order := |c.acted|, steps[line[|c.acted| - 1]].order;
    forall j | 0 <= j < |steps| ensures !ActedLaterFilter(order)(j, steps[j]) {
      if IsFlow(steps[j].role) {
        var y :| 0 <= y < |line| && line[y] == j;
      }
    }
  }

  /** An approved step with none acting after it is the last approved one, and none was sent back. */
  lemma CancelPlace(steps: seq<Step>, line: seq<nat>, c: Cursor, i: nat)
    requires Reads(steps, line, c) && c.ending.Running?
    requires i < |steps| && IsFlow(steps[i].role)
    requires steps[i].status.Approved? || steps[i].status.ProxyApproved?
    requires Earliest(steps, ActedLaterFilter(steps[i].order)).None?
    ensures |c.acted| > 0 && line[|c.acted| - 1] == i && c.returned == 0
  {
    var k, order := |c.acted|, steps[i].order;
    var x :| 0 <= x < |line| && line[x] == i;
    assert x < k;
    assert !ActedLaterFilter(order)(line[k - 1], steps[line[k - 1]]);
    if k + 1 < |line| {
      assert !ActedLaterFilter(order)(line[k + 1], steps[line[k + 1]]);
    }
  }

  /** The pending step after the last approved one is the current one. */
  lemma PendingAfterPlace(steps: seq<Step>, line: seq<nat>, c: Cursor, i: nat)
    requires Reads(steps, line, c) && c.ending.Running?
    requires i < |steps| && |c.acted| > 0 && line[|c.acted| - 1] == i
    ensures Earliest(steps, PendingLaterFilter(steps[i].order)) == Some(line[|c.acted|])
  {
    var k, pending := |c.acted|, Earliest(steps, PendingLaterFilter(steps[i].order));
    assert PendingLaterFilter(steps[i].order)(line[k], steps[line[k]]);
    var y :| 0 <= y < |line| && line[y] == pending.value;
    assert y == k;
  }

  // ── Each action is a move of the machine ──

  /** New rows read as state `c'` if each place has its status. */
  lemma ReadsAfter(steps: seq<Step>, steps': seq<Step>, line: seq<nat>, c: Cursor, c': Cursor)
    requires Reads(steps, line, c) && SameSkeleton(steps, steps') && WellFormed(c', |line|)
    requires forall x :: 0 <= x < |line| ==> steps'[line[x]].status == StatusAt(c', x)
    ensures Reads(steps', line, c')
  {
  }

  /** Places differ when rows do. */
  lemma PlacesDistinct(steps: seq<Step>, line: seq<nat>, c: Cursor)
    requires Reads(steps, line, c)
    ensures forall x, y :: 0 <= x < y < |line| ==> line[x] != line[y]
  {
  }

  /** A logged change of the rows and the status, as a move. */
  lemma LoggedMoves(d: Doc, rows: seq<Step>, status: DocStatus, step: Option<nat>, actor: Id,
                    a: HistoryAction, line: seq<nat>, c: Cursor)
    requires Enabled(c, a) && SameSkeleton(d.steps, rows)
    requires Reads(rows, line, Feed(c, |line|, a)) && StatusOf(Feed(c, |line|, a).ending) == status
    ensures Moves(d, Log(d.(steps := rows, status := status), step, actor, a), a, line, c)
  {
    var d' := Log(d.(steps := rows, status := status), step, actor, a);
    assert d'.history == d.history + [Entry(step, actor, a)];
  }

  /** The next step becomes the current one. */
  lemma ActivateReads(steps: seq<Step>, line: seq<nat>, c: Cursor, proxy: bool, actor: Id)
    requires Reads(steps, line, c) && c.ending.Running? && |c.acted| + 1 < |line|
    ensures var i, m := line[|c.acted|], line[|c.acted| + 1];
            var marked := ApproveMark(steps, i, proxy, actor);
            var rows := marked[m := marked[m].(status := Pending)];
            SameSkeleton(steps, rows) &&
            Reads(rows, line, Feed(c, |line|, if proxy then DidProxyApprove else DidApprove))
  {
    var i, m := line[|c.acted|], line[|c.acted| + 1];
    var marked := ApproveMark(steps, i, proxy, actor);
    var rows := marked[m := marked[m].(status := Pending)];
    var c' := Feed(c, |line|, if proxy then DidProxyApprove else DidApprove);
    PlacesDistinct(steps, line, c);
    forall x | 0 <= x < |line| ensures rows[line[x]].status == StatusAt(c', x) {
      assert steps[line[x]].status == StatusAt(c, x);
    }
    ReadsAfter(steps, rows, line, c, c');
  }

  /** After the last step the line is all approved. */
  lemma FinalizeReads(steps: seq<Step>, line: seq<nat>, c: Cursor, proxy: bool, actor: Id)
    requires Reads(steps, line, c) && c.ending.Running? && |c.acted| + 1 == |line|
    ensures var rows := Finalize(ApproveMark(steps, line[|c.acted|], proxy, actor));
            SameSkeleton(steps, rows) &&
            Reads(rows, line, Feed(c, |line|, if proxy then DidProxyApprove else DidApprove))
  {
    var rows := Finalize(ApproveMark(steps, line[|c.acted|], proxy, actor));
    var c' := Feed(c, |line|, if proxy then DidProxyApprove else DidApprove);
    PlacesDistinct(steps, line, c);
    forall x | 0 <= x < |line| ensures rows[line[x]].status == StatusAt(c', x) {
      assert steps[line[x]].status == StatusAt(c, x);
    }
    ReadsAfter(steps, rows, line, c, c');
  }

  lemma ProgressMoves(d: Doc, i: nat, actor: Id, proxy: bool, a: HistoryAction,
                      line: seq<nat>, c: Cursor)
    requires Reads(d.steps, line, c) && c.ending.Running? && d.status.DocPending?
    requires |c.acted| < |line| && line[|c.acted|] == i
    requires IsApproval(a) && a.DidProxyApprove? == proxy
    ensures var marked := ApproveMark(d.steps, i, proxy, actor);
            var progressed := Progress(d, marked, Earliest(d.steps, NextFilter(i)));
            Moves(d, Log(progressed, Some(i), actor, a), a, line, c)
  {
    NextPlace(d.steps, line, c, i);
    var marked := ApproveMark(d.steps, i, proxy, actor);
    if |c.acted| + 1 < |line| {
      ActivateReads(d.steps, line, c, proxy, actor);
      var m := line[|c.acted| + 1];
      LoggedMoves(d, marked[m := marked[m].(status := Pending)], DocPending, Some(i), actor, a, line, c);
    } else {
      FinalizeReads(d.steps, line, c, proxy, actor);
      LoggedMoves(d, Finalize(marked), DocApproved, Some(i), actor, a, line, c);
    }
  }

  lemma ApproveMoves(d: Doc, i: nat, actor: Id, env: Env, expected: Role, line: seq<nat>, c: Cursor)
    returns (a: HistoryAction)
    requires IsFlow(expected) && ApproveFlowStep(d, i, actor, env, expected).Success?
    requires Reads(d.steps, line, c) && StatusOf(c.ending) == d.status
    ensures IsApproval(a) && Moves(d, ApproveFlowStep(d, i, actor, env, expected).value, a, line, c)
  {
    var proxy := ResolveActor(d.steps[i], actor, env).value;
    a := ApprovalAction(expected, proxy);
    PendingPlace(d.steps, line, c, i);
    ProgressMoves(d, i, actor, proxy, a, line, c);
  }

  lemma RejectReads(steps: seq<Step>, line: seq<nat>, c: Cursor, proxy: bool, actor: Id)
    requires Reads(steps, line, c) && c.ending.Running?
    ensures var rows := RejectRows(steps, line[|c.acted|], proxy, actor);
            SameSkeleton(steps, rows) && Reads(rows, line, Feed(c, |line|, DidReject))
  {
    var rows := RejectRows(steps, line[|c.acted|], proxy, actor);
    PlacesDistinct(steps, line, c);
    var c' := Feed(c, |line|, DidReject);
    forall x | 0 <= x < |line| ensures rows[line[x]].status == StatusAt(c', x) {
      assert steps[line[x]].status == StatusAt(c, x);
    }
    ReadsAfter(steps, rows, line, c, c');
  }

  lemma RejectMoves(d: Doc, i: nat, actor: Id, env: Env, line: seq<nat>, c: Cursor)
    requires RejectStep(d, i, actor, env).Success?
    requires Reads(d.steps, line, c) && StatusOf(c.ending) == d.status
    ensures Moves(d, RejectStep(d, i, actor, env).value, DidReject, line, c)
  {
    var d' := RejectStep(d, i, actor, env).value;
    PendingPlace(d.steps, line, c, i);
    RejectReads(d.steps, line, c, ResolveActor(d.steps[i], actor, env).value, actor);
    LoggedMoves(d, d'.steps, d'.status, Some(i), actor, DidReject, line, c);
  }

  lemma PreApproveReads(steps: seq<Step>, line: seq<nat>, c: Cursor, proxy: bool, actor: Id)
    requires Reads(steps, line, c) && c.ending.Running?
    ensures var rows := PreApproveRows(steps, line[|c.acted|], proxy, actor);
            SameSkeleton(steps, rows) && Reads(rows, line, Feed(c, |line|, DidPreApprove))
  {
    var rows := PreApproveRows(steps, line[|c.acted|], proxy, actor);
    PlacesDistinct(steps, line, c);
    var c' := Feed(c, |line|, DidPreApprove);
    forall x | 0 <= x < |line| ensures rows[line[x]].status == StatusAt(c', x) {
      assert steps[line[x]].status == StatusAt(c, x);
    }
    ReadsAfter(steps, rows, line, c, c');
  }

  lemma PreApproveMoves(d: Doc, i: nat, actor: Id, env: Env, line: seq<nat>, c: Cursor)
    requires PreApproveStep(d, i, actor, env).Success?
    requires Reads(d.steps, line, c) && StatusOf(c.ending) == d.status
    ensures Moves(d, PreApproveStep(d, i, actor, env).value, DidPreApprove, line, c)
  {
    var d' := PreApproveStep(d, i, actor, env).value;
    PendingPlace(d.steps, line, c, i);
    PreApproveReads(d.steps, line, c, ResolveActor(d.steps[i], actor, env).value, actor);
    LoggedMoves(d, d'.steps, d'.status, Some(i), actor, DidPreApprove, line, c);
  }

  lemma ReturnReads(steps: seq<Step>, line: seq<nat>, c: Cursor)
    requires Reads(steps, line, c) && c.ending.Running? && |c.acted| > 0
    ensures var rows := ReturnRows(steps, line[|c.acted|], line[|c.acted| - 1]);
            SameSkeleton(steps, rows) && Reads(rows, line, Feed(c, |line|, DidReturnPrev))
  {
    var rows := ReturnRows(steps, line[|c.acted|], line[|c.acted| - 1]);
    PlacesDistinct(steps, line, c);
    var c' := Feed(c, |line|, DidReturnPrev);
    forall x | 0 <= x < |line| ensures rows[line[x]].status == StatusAt(c', x) {
      assert steps[line[x]].status == StatusAt(c, x);
    }
    ReadsAfter(steps, rows, line, c, c');
  }

  lemma ReturnMoves(d: Doc, i: nat, actor: Id, env: Env, line: seq<nat>, c: Cursor)
    requires ReturnToPrevious(d, i, actor, env).Success?
    requires Reads(d.steps, line, c) && StatusOf(c.ending) == d.status
    ensures Moves(d, ReturnToPrevious(d, i, actor, env).value, DidReturnPrev, line, c)
  {
    var d' := ReturnToPrevious(d, i, actor, env).value;
    PendingPlace(d.steps, line, c, i);
    PreviousPlace(d.steps, line, c, i);
    ReturnReads(d.steps, line, c);
    LoggedMoves(d, d'.steps, d'.status, Some(i), actor, DidReturnPrev, line, c);
  }

  lemma CancelReads(steps: seq<Step>, line: seq<nat>, c: Cursor)
    requires Reads(steps, line, c) && c.ending.Running? && c.returned == 0 && |c.acted| > 0
    ensures var rows := CancelRows(steps, line[|c.acted| - 1], Some(line[|c.acted|]));
            SameSkeleton(steps, rows) && Reads(rows, line, Feed(c, |line|, DidCancelApproval))
  {
    var rows := CancelRows(steps, line[|c.acted| - 1], Some(line[|c.acted|]));
    PlacesDistinct(steps, line, c);
    var c' := Feed(c, |line|, DidCancelApproval);
    forall x | 0 <= x < |line| ensures rows[line[x]].status == StatusAt(c', x) {
      assert steps[line[x]].status == StatusAt(c, x);
    }
    ReadsAfter(steps, rows, line, c, c');
  }

  lemma CancelMoves(d: Doc, i: nat, actor: Id, line: seq<nat>, c: Cursor)
    requires CancelApproval(d, i, actor).Success? && IsFlow(d.steps[i].role)
    requires Reads(d.steps, line, c) && StatusOf(c.ending) == d.status
    ensures Moves(d, CancelApproval(d, i, actor).value, DidCancelApproval, line, c)
  {
    var d' := CancelApproval(d, i, actor).value;
    CancelPlace(d.steps, line, c, i);
    PendingAfterPlace(d.steps, line, c, i);
    CancelReads(d.steps, line, c);
    LoggedMoves(d, d'.steps, d'.status, Some(i), actor, DidCancelApproval, line, c);
  }

  /** A recall finds nothing approved: the machine is at the first step. */
  lemma RecallMoves(d: Doc, user: Id, line: seq<nat>, c: Cursor)
    requires Recall(d, user).Success?
    requires Reads(d.steps, line, c) && StatusOf(c.ending) == d.status
    ensures Moves(d, Recall(d, user).value, DidRecall, line, c)
  {
    var d' := Recall(d, user).value;
    assert d'.history == d.history + [Entry(None, user, DidRecall)];
    assert !IsActed(d.steps[line[0]].status);
    assert c.acted == [];
    ReadsAfter(d.steps, d'.steps, line, c, Feed(c, |line|, DidRecall));
  }

  /** Actions that leave the flow rows alone. */
  lemma SideMoves(d: Doc, d': Doc, step: Option<nat>, actor: Id, a: HistoryAction,
                  line: seq<nat>, c: Cursor)
    requires Reads(d.steps, line, c) && StatusOf(c.ending) == d.status
    requires d'.history == d.history + [Entry(step, actor, a)] && d'.status == d.status
    requires a.DidView? || a.DidOpinion? || ((a.DidReceive? || a.DidBounce?) && d.status.DocApproved?)
    requires SameSkeleton(d.steps, d'.steps)
    requires forall j :: 0 <= j < |d.steps| && IsFlow(d.steps[j].role) ==> d'.steps[j] == d.steps[j]
    ensures Moves(d, d', a, line, c)
  {
    ReadsAfter(d.steps, d'.steps, line, c, c);
  }

  lemma SideStepMoves(d: Doc, i: nat, actor: Id, env: Env, line: seq<nat>, c: Cursor)
    requires Reads(d.steps, line, c) && StatusOf(c.ending) == d.status
    ensures ViewStep(d, i, actor, env).Success? ==>
      Moves(d, ViewStep(d, i, actor, env).value, DidView, line, c)
    ensures ReceiveStep(d, i, actor, env).Success? ==>
      Moves(d, ReceiveStep(d, i, actor, env).value, DidReceive, line, c)
    ensures BounceStep(d, i, actor, env).Success? ==>
      Moves(d, BounceStep(d, i, actor, env).value, DidBounce, line, c)
  {
    if ViewStep(d, i, actor, env).Success? {
      SideMoves(d, ViewStep(d, i, actor, env).value, Some(i), actor, DidView, line, c);
    }
    if ReceiveStep(d, i, actor, env).Success? {
      SideMoves(d, ReceiveStep(d, i, actor, env).value, Some(i), actor, DidReceive, line, c);
    }
    if BounceStep(d, i, actor, env).Success? {
      SideMoves(d, BounceStep(d, i, actor, env).value, Some(i), actor, DidBounce, line, c);
    }
  }

  // ── Each action keeps the invariant ──

  lemma AddCcKeepsFlow(d: Doc, ccs: seq<CcInput>, user: Id)
    requires AddCcSteps(d, ccs, user).Success? && FlowOk(d)
    ensures var d' := AddCcSteps(d, ccs, user).value;
            FlowOk(d') && FlowLine(d'.steps) == FlowLine(d.steps) && CursorOf(d') == CursorOf(d)
  {
    var d' := AddCcSteps(d, ccs, user).value;
    FlowLineStable(d.steps, d'.steps);
    assert FlowStatuses(d'.steps) == FlowStatuses(d.steps);
  }

  /** The first flow step is pending and the others wait. */
  lemma SubmitStartsFlow(d: Doc, steps: seq<StepInput>, user: Id)
    requires d.history == [] && Submit(d, steps, user).Success?
    requires DistinctFlowOrders(Submit(d, steps, user).value.steps)
    ensures FlowOk(Submit(d, steps, user).value)
  {
    var d' := Submit(d, steps, user).value;
    var rows, drafts := d'.steps, DraftRows(steps);
    var line := FlowLine(rows);
    var f :| 0 <= f < |steps| && IsFlow(steps[f].role);
    assert IsFlow(rows[f].role) && FlowFilter()(f, drafts[f]);
    var x0 := FlowPosition(rows, f);
    FlowLineSorted(rows);
    var first := Earliest(drafts, FlowFilter()).value;
    var y := FlowPosition(rows, first);
    FlowLineStrict(rows, 0, y);
    assert line[0] in line && FlowFilter()(line[0], drafts[line[0]]);
    assert line[0] == first;
    forall x | 0 <= x < |line| ensures rows[line[x]].status == StatusAt(START, x) {
      assert line[x] in line;
      FlowLineStrict(rows, 0, x);
    }
    assert FlowStatuses(rows) == LineOf(START, |line|);
    assert Actions(d'.history) == [DidSubmit];
  }

  /** The machine's view of an operation on a submitted document. */
  lemma PerformMoves(d: Doc, op: Operation, env: Env, line: seq<nat>, c: Cursor)
    returns (a: HistoryAction)
    requires Perform(d, op, env).Success? && !op.OpAddCc? && !d.status.DocDraft? && SidesOk(d)
    requires Reads(d.steps, line, c) && StatusOf(c.ending) == d.status
    ensures Moves(d, Perform(d, op, env).value, a, line, c)
  {
    match op
    case OpUpdate(_, _) => a := DidOpinion;
    case OpSubmit(_, _) => a := DidOpinion;
    case OpAddCc(_, _) => a := DidOpinion;
    case OpRecall(user) => RecallMoves(d, user, line, c); a := DidRecall;
    case OpApprove(i, user) => a := ApproveMoves(d, i, user, env, Approver, line, c);
    case OpAgree(i, user) => a := ApproveMoves(d, i, user, env, Agreement, line, c);
    case OpDeptCollab(i, user) => a := ApproveMoves(d, i, user, env, DeptCollaborator, line, c);
    case OpReject(i, user) => RejectMoves(d, i, user, env, line, c); a := DidReject;
    case OpPreApprove(i, user) => PreApproveMoves(d, i, user, env, line, c); a := DidPreApprove;
    case OpReturnToPrevious(i, user) => ReturnMoves(d, i, user, env, line, c); a := DidReturnPrev;
    case OpCancelApproval(i, user) =>
      assert SideOk(d.status, d.steps[i]);
      CancelMoves(d, i, user, line, c);
      a := DidCancelApproval;
    case OpView(i, user) => SideStepMoves(d, i, user, env, line, c); a := DidView;
    case OpReceive(i, user) => SideStepMoves(d, i, user, env, line, c); a := DidReceive;
    case OpBounce(i, user) => SideStepMoves(d, i, user, env, line, c); a := DidBounce;
    case OpAddOpinion(user, _) =>
      SideMoves(d, Perform(d, op, env).value, None, user, DidOpinion, line, c);
      a := DidOpinion;
  }

  /** Rows keep their role, assignee, department and stepOrder; carbon copies may be appended. */
  ghost predicate RowsKept(s: seq<Step>, t: seq<Step>) {
    && |s| <= |t|
    && (forall j :: 0 <= j < |s| ==>
      s[j].role == t[j].role && s[j].order == t[j].order && s[j].assignee == t[j].assignee && s[j].org == t[j].org)
    && (forall j :: |s| <= j < |t| ==> !IsFlow(t[j].role) && !IsReceiver(t[j].role))
  }

  /** Rows of a document that stays pending or ends keep the side steps in order. */
  lemma RowsKeepSides(d: Doc, rows: seq<Step>, status: DocStatus)
    requires SidesOk(d) && d.status.DocPending? && RowsKept(d.steps, rows) && |rows| == |d.steps|
    requires forall j :: 0 <= j < |rows| && !IsFlow(rows[j].role) && !IsReceiver(rows[j].role) ==>
               rows[j].status == d.steps[j].status
    requires forall j :: 0 <= j < |rows| && IsReceiver(rows[j].role) && d.steps[j].status.Waiting? ==>
               match status {
                 case DocPending => rows[j].status.Waiting?
                 case DocApproved => rows[j].status.Pending?
                 case DocRejected => rows[j].status.Cancelled?
                 case _ => false
               }
    ensures SidesOk(d.(steps := rows, status := status))
  {
    forall j | 0 <= j < |rows| ensures SideOk(status, rows[j]) {
      assert SideOk(d.status, d.steps[j]);
    }
  }

  ghost predicate KeepsSides(d: Doc, d': Doc) {
    !d'.status.DocDraft? && !d'.status.DocCancelled? && RowsKept(d.steps, d'.steps) &&
    |d'.steps| == |d.steps| && SidesOk(d')
  }

  lemma ApproveKeepsSides(d: Doc, i: nat, actor: Id, env: Env, expected: Role)
    requires IsFlow(expected) && SidesOk(d) && ApproveFlowStep(d, i, actor, env, expected).Success?
    ensures KeepsSides(d, ApproveFlowStep(d, i, actor, env, expected).value)
  {
    var d' := ApproveFlowStep(d, i, actor, env, expected).value;
    RowsKeepSides(d, d'.steps, d'.status);
  }

  lemma RejectKeepsSides(d: Doc, i: nat, actor: Id, env: Env)
    requires SidesOk(d) && RejectStep(d, i, actor, env).Success?
    ensures KeepsSides(d, RejectStep(d, i, actor, env).value)
  {
    RowsKeepSides(d, RejectStep(d, i, actor, env).value.steps, DocRejected);
  }

  lemma PreApproveKeepsSides(d: Doc, i: nat, actor: Id, env: Env)
    requires SidesOk(d) && PreApproveStep(d, i, actor, env).Success?
    ensures KeepsSides(d, PreApproveStep(d, i, actor, env).value)
  {
    RowsKeepSides(d, PreApproveStep(d, i, actor, env).value.steps, DocApproved);
  }

  lemma ReturnKeepsSides(d: Doc, i: nat, actor: Id, env: Env)
    requires SidesOk(d) && ReturnToPrevious(d, i, actor, env).Success?
    ensures KeepsSides(d, ReturnToPrevious(d, i, actor, env).value)
  {
    RowsKeepSides(d, ReturnToPrevious(d, i, actor, env).value.steps, DocPending);
  }

  lemma CancelKeepsSides(d: Doc, i: nat, actor: Id)
    requires SidesOk(d) && CancelApproval(d, i, actor).Success?
    ensures KeepsSides(d, CancelApproval(d, i, actor).value)
  {
    assert SideOk(d.status, d.steps[i]);
    RowsKeepSides(d, CancelApproval(d, i, actor).value.steps, DocPending);
  }

  lemma SideStepKeepsSides(d: Doc, i: nat, actor: Id, env: Env)
    requires SidesOk(d) && !d.status.DocDraft? && !d.status.DocCancelled?
    ensures ViewStep(d, i, actor, env).Success? ==> KeepsSides(d, ViewStep(d, i, actor, env).value)
    ensures ReceiveStep(d, i, actor, env).Success? ==> KeepsSides(d, ReceiveStep(d, i, actor, env).value)
    ensures BounceStep(d, i, actor, env).Success? ==> KeepsSides(d, BounceStep(d, i, actor, env).value)
  {
    assert i < |d.steps| ==> SideOk(d.status, d.steps[i]);
  }

  lemma AddCcKeepsSides(d: Doc, ccs: seq<CcInput>, user: Id)
    requires SidesOk(d) && AddCcSteps(d, ccs, user).Success?
    ensures var d' := AddCcSteps(d, ccs, user).value;
            d'.status == d.status && RowsKept(d.steps, d'.steps) && SidesOk(d')
  {
    assert forall j :: 0 <= j < |d.steps| ==> SideOk(d.status, d.steps[j]);
  }

  /** Receivers wait until the document ends; carbon copies are only ever viewed. */
  lemma PerformKeepsSides(d: Doc, op: Operation, env: Env)
    requires !d.status.DocDraft? && !d.status.DocCancelled? && SidesOk(d)
    requires Perform(d, op, env).Success?
    ensures var d' := Perform(d, op, env).value;
            !d'.status.DocDraft? && !d'.status.DocCancelled? && SidesOk(d') && RowsKept(d.steps, d'.steps)
    ensures |Perform(d, op, env).value.steps| > |d.steps| ==> op.OpAddCc?
  {
    match op
    case OpUpdate(_, _) =>
    case OpSubmit(_, _) =>
    case OpRecall(_) => assert forall j :: 0 <= j < |d.steps| ==> SideOk(d.status, d.steps[j]);
    case OpApprove(i, user) => ApproveKeepsSides(d, i, user, env, Approver);
    case OpAgree(i, user) => ApproveKeepsSides(d, i, user, env, Agreement);
    case OpDeptCollab(i, user) => ApproveKeepsSides(d, i, user, env, DeptCollaborator);
    case OpReject(i, user) => RejectKeepsSides(d, i, user, env);
    case OpPreApprove(i, user) => PreApproveKeepsSides(d, i, user, env);
    case OpReturnToPrevious(i, user) => ReturnKeepsSides(d, i, user, env);
    case OpCancelApproval(i, user) => CancelKeepsSides(d, i, user);
    case OpView(i, user) => SideStepKeepsSides(d, i, user, env);
    case OpReceive(i, user) => SideStepKeepsSides(d, i, user, env);
    case OpBounce(i, user) => SideStepKeepsSides(d, i, user, env);
    case OpAddCc(ccs, user) => AddCcKeepsSides(d, ccs, user);
    case OpAddOpinion(_, _) => assert forall j :: 0 <= j < |d.steps| ==> SideOk(d.status, d.steps[j]);
  }

  /** Every successful operation keeps the invariant. */
  lemma PerformKeepsInv(d: Doc, op: Operation, env: Env)
    requires Inv(d) && Perform(d, op, env).Success?
    ensures Inv(Perform(d, op, env).value)
  {
    var d' := Perform(d, op, env).value;
    if d.status.DocDraft? {
      if op.OpSubmit? && DistinctFlowOrders(d'.steps) {
        SubmitStartsFlow(d, op.line, op.user);
      }
    } else {
      PerformKeepsSides(d, op, env);
      if DistinctFlowOrders(d'.steps) {
        if op.OpAddCc? {
          AddCcKeepsFlow(d, op.ccs, op.user);
        } else {
          FlowOkReads(d);
          var a := PerformMoves(d, op, env, FlowLine(d.steps), CursorOf(d));
          Advance(d, d', a);
        }
      }
    }
  }
}
