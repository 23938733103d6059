/**
 * A counter machine that reads an approval history: who has approved so far, how many steps
 * after the current one were sent back, and how the document ended. It knows nothing of rows,
 * ids or stepOrder; the refinement module shows that it determines the whole flow line.
 */
module ApprovalCursor {
  import opened ApprovalTypes

  datatype Ending = Running | Finished | FinishedEarly | Refused | TakenBack

  /** `acted` holds, per approved step, whether a proxy approved it. */
  datatype Cursor = Cursor(acted: seq<bool>, returned: nat, ending: Ending)

  const START := Cursor([], 0, Running)

  predicate IsApproval(a: HistoryAction) {
    a.DidApprove? || a.DidProxyApprove? || a.DidAgree? || a.DidDeptCollab?
  }

  /** May the machine read `a` next, on a line of `n` flow steps? */
  predicate Enabled(c: Cursor, a: HistoryAction) {
    match a
    case DidApprove | DidProxyApprove | DidAgree | DidDeptCollab | DidReject | DidPreApprove =>
      c.ending.Running?
    case DidReturnPrev => c.ending.Running? && c.acted != []
    case DidCancelApproval => c.ending.Running? && c.acted != [] && c.returned == 0
    case DidRecall => c.ending.Running? && c.acted == []
    case DidReceive | DidBounce => c.ending.Finished? || c.ending.FinishedEarly?
    case DidView | DidOpinion => true
    case DidSubmit => false
  }

  function Feed(c: Cursor, n: nat, a: HistoryAction): Cursor
    requires Enabled(c, a)
  {
    match a
    case DidApprove | DidProxyApprove | DidAgree | DidDeptCollab =>
      Cursor(c.acted + [a.DidProxyApprove?],
             if c.returned == 0 then 0 else c.returned - 1,
             if |c.acted| + 1 >= n then Finished else Running)
    case DidReturnPrev => c.(acted := c.acted[..|c.acted| - 1], returned := c.returned + 1)
    case DidCancelApproval => c.(acted := c.acted[..|c.acted| - 1])
    case DidReject => c.(ending := Refused)
    case DidPreApprove => c.(ending := FinishedEarly)
    case DidRecall => c.(ending := TakenBack)
    case DidReceive | DidBounce | DidView | DidOpinion => c
  }

  /** A history that starts with the submission and then only has enabled actions. */
  predicate Legal(n: nat, h: seq<HistoryAction>)
    decreases |h|, 0
  {
    && |h| > 0
    && h[0] == DidSubmit
    && (|h| > 1 ==> Legal(n, h[..|h| - 1]) && Enabled(Replay(n, h[..|h| - 1]), h[|h| - 1]))
  }

  function Replay(n: nat, h: seq<HistoryAction>): Cursor
    requires Legal(n, h)
    decreases |h|, 1
  {
    if |h| == 1 then START else Feed(Replay(n, h[..|h| - 1]), n, h[|h| - 1])
  }

  /** Reading one more action. */
  lemma ReplayNext(n: nat, h: seq<HistoryAction>, a: HistoryAction)
    requires Legal(n, h) && Enabled(Replay(n, h), a)
    ensures Legal(n, h + [a]) && Replay(n, h + [a]) == Feed(Replay(n, h), n, a)
  {
    assert (h + [a])[..|h|] == h;
  }

  function StatusOf(e: Ending): DocStatus {
    match e
    case Running => DocPending
    case Finished | FinishedEarly => DocApproved
    case Refused => DocRejected
    case TakenBack => DocRecalled
  }

  /** The status of flow step `i`, as the machine knows it. */
  function StatusAt(c: Cursor, i: nat): StepStatus {
    if i < |c.acted| then (if c.acted[i] then ProxyApproved else Approved)
    else if i == |c.acted| then
      match c.ending {
        case FinishedEarly => PreApproved
        case Refused => Rejected
        case _ => Pending
      }
    else match c.ending {
        case FinishedEarly => Skipped
        case Refused => if i <= |c.acted| + c.returned then Returned else Cancelled
        case _ => if i <= |c.acted| + c.returned then Returned else Waiting
      }
  }

  function LineOf(c: Cursor, n: nat): (r: seq<StepStatus>)
    ensures |r| == n
  {
    seq(n, i requires 0 <= i < n => StatusAt(c, i))
  }

  predicate WellFormed(c: Cursor, n: nat) {
    match c.ending
    case Finished => |c.acted| == n && c.returned == 0
    case TakenBack => |c.acted| == 0 && 1 + c.returned <= n
    case _ => |c.acted| + 1 + c.returned <= n
  }

  lemma FeedWellFormed(c: Cursor, n: nat, a: HistoryAction)
    requires WellFormed(c, n) && Enabled(c, a)
    ensures WellFormed(Feed(c, n, a), n)
  {
  }

  lemma {:induction false} LegalWellFormed(n: nat, h: seq<HistoryAction>)
    requires n > 0 && Legal(n, h)
    ensures WellFormed(Replay(n, h), n)
  {
    if |h| > 1 {
      LegalWellFormed(n, h[..|h| - 1]);
      FeedWellFormed(Replay(n, h[..|h| - 1]), n, h[|h| - 1]);
    }
  }

  // ── Counting actions ──

  function Count(h: seq<HistoryAction>, p: HistoryAction -> bool): nat {
    if h == [] then 0
    else Count(h[..|h| - 1], p) + if p(h[|h| - 1]) then 1 else 0
  }

  function Approvals(h: seq<HistoryAction>): nat { Count(h, a => IsApproval(a)) }

  function Returns(h: seq<HistoryAction>): nat { Count(h, (a: HistoryAction) => a.DidReturnPrev?) }

  function Cancels(h: seq<HistoryAction>): nat { Count(h, (a: HistoryAction) => a.DidCancelApproval?) }

  /** Approvals not taken back: those logged, less the returns and the cancellations. */
  lemma {:induction false} ActedIsTally(n: nat, h: seq<HistoryAction>)
    requires Legal(n, h)
    ensures |Replay(n, h).acted| == Approvals(h) - Returns(h) - Cancels(h)
  {
    var before := h[..|h| - 1];
    assert Approvals(h) == Approvals(before) + if IsApproval(h[|h| - 1]) then 1 else 0;
    if |h| == 1 {
      assert Approvals(before) == Returns(before) == Cancels(before) == 0;
    } else {
      ActedIsTally(n, before);
    }
  }

  // ── Undo laws of the machine ──

  /** Returning to the previous step and approving that step again changes only the approver's mark. */
  lemma ReturnThenApprove(c: Cursor, n: nat, a: HistoryAction)
    requires WellFormed(c, n) && Enabled(c, DidReturnPrev) && IsApproval(a)
    ensures var back := Feed(c, n, DidReturnPrev);
            Enabled(back, a) &&
            Feed(back, n, a) == c.(acted := c.acted[..|c.acted| - 1] + [a.DidProxyApprove?])
  {
  }

  /** A non-final approval can be cancelled iff at most one step had been sent back; if one had,
      it comes back waiting. */
  lemma ApproveThenCancel(c: Cursor, n: nat, a: HistoryAction)
    requires WellFormed(c, n) && c.ending.Running? && |c.acted| + 1 < n && IsApproval(a)
    ensures var on := Feed(c, n, a);
            (Enabled(on, DidCancelApproval) <==> c.returned <= 1) &&
            (c.returned <= 1 ==> Feed(on, n, DidCancelApproval) == c.(returned := 0))
  {
    assert (c.acted + [a.DidProxyApprove?])[..|c.acted|] == c.acted;
  }

  /** By approvals alone a document is approved at the (n - k)-th approval and no earlier. */
  lemma {:induction false} ApprovalsToFinish(n: nat, h: seq<HistoryAction>, more: seq<HistoryAction>)
    requires n > 0 && Legal(n, h) && Replay(n, h).ending.Running?
    requires forall i :: 0 <= i < |more| ==> IsApproval(more[i])
    requires |more| <= n - |Replay(n, h).acted|
    ensures Legal(n, h + more)
    ensures |Replay(n, h + more).acted| == |Replay(n, h).acted| + |more|
    ensures Replay(n, h + more).ending ==
            if |more| == n - |Replay(n, h).acted| then Finished else Running
    decreases |more|
  {
    LegalWellFormed(n, h);
    if more == [] {
      assert h + more == h;
    } else {
      var most, last := more[..|more| - 1], more[|more| - 1];
      ApprovalsToFinish(n, h, most);
      ReplayNext(n, h + most, last);
      assert h + more == h + most + [last];
    }
  }
}
