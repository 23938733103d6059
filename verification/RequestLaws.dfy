/** What holds of every request, its document and the ledger over every run of the requests module. */
module RequestLaws {
  import opened Wrappers
  import opened RequestRounds
  import opened RequestDesk
  import L = LeaveLedger
  import LL = LeaveLedgerLaws

  function Times(log: seq<Id>, id: Id): nat {
    multiset(log)[id]
  }

  /** Rules as their schema admits them: rounds start at 1. */
  ghost predicate ValidRules(s: Setting) {
    forall k :: k in s.rules ==> forall d :: d in s.rules[k].details ==> d.round >= 1
  }

  // ── The invariant ──

  ghost predicate DocMatches(d: Desk, r: Request) {
    r.document.Some? ==>
      && r.document.value in d.docs
      && d.docs[r.document.value].status == r.status
      && d.docs[r.document.value].content == r.payload
  }

  /** A step is pending exactly when its round has been reached. */
  ghost predicate StepsFollowRound(d: Desk, r: Request, round: nat) {
    r.document.Some? && r.document.value in d.docs ==>
      forall j :: 0 <= j < |d.docs[r.document.value].steps| ==>
        (d.docs[r.document.value].steps[j].isPending <==> d.docs[r.document.value].steps[j].round <= round)
  }

  ghost predicate RequestOk(s: Setting, d: Desk, r: Request) {
    && DocMatches(d, r)
    && (r.status.ReqPending? ==>
         var rule := RuleFor(s, r.payload);
         var round := CurrentRound(rule, r.approvals);
         FillsInOrder(rule, r.approvals, round) && StepsFollowRound(d, r, round))
  }

  /** No two requests share a document. */
  ghost predicate OwnDocuments(d: Desk) {
    forall a, b :: a in d.requests && b in d.requests && a != b && d.requests[a].document.Some? ==>
      d.requests[a].document != d.requests[b].document
  }

  ghost predicate IdsBelow(d: Desk) {
    && (forall id :: id in d.requests ==> id < d.nextRequest)
    && (forall x :: x in d.docs ==> x < d.nextDoc)
    && (forall id :: id in d.applied ==> id < d.nextRequest)
  }

  /** The effect of a request was applied once if it is approved, and never otherwise. */
  ghost predicate AppliedOnce(d: Desk) {
    forall id :: id in d.requests ==>
      Times(d.applied, id) == if d.requests[id].status.ReqApproved? then 1 else 0
  }

  ghost predicate Inv(s: Setting, d: Desk) {
    && IdsBelow(d) && OwnDocuments(d) && AppliedOnce(d)
    && (forall id :: id in d.requests ==> RequestOk(s, d, d.requests[id]))
  }

  // ── One request changes, the others do not ──

  /** `d'` is `d` with request `id` replaced, and at most its own document changed. */
  ghost predicate Replaces(d: Desk, d': Desk, id: Id, r': Request) {
    && id in d.requests && d.requests[id].document == r'.document
    && d'.requests == d.requests[id := r']
    && d'.docs.Keys == d.docs.Keys
    && (forall x :: x in d.docs && r'.document != Some(x) ==> d'.docs[x] == d.docs[x])
    && d'.nextRequest == d.nextRequest && d'.nextDoc == d.nextDoc
  }

  lemma ReplaceKeepsOthers(s: Setting, d: Desk, d': Desk, id: Id, r': Request, x: Id)
    requires Inv(s, d) && Replaces(d, d', id, r') && x in d.requests && x != id
    ensures RequestOk(s, d', d.requests[x])
  {
    assert RequestOk(s, d, d.requests[x]);
    assert d.requests[x].document.Some? ==> d.requests[x].document != d.requests[id].document;
  }

  lemma ReplaceKeepsIds(d: Desk, d': Desk, id: Id, r': Request)
    requires IdsBelow(d) && OwnDocuments(d) && Replaces(d, d', id, r')
    requires d'.applied == d.applied || d'.applied == d.applied + [id]
    ensures IdsBelow(d') && OwnDocuments(d')
  {
  }

  lemma ReplaceKeepsApplied(d: Desk, d': Desk, id: Id, r': Request)
    requires AppliedOnce(d) && Replaces(d, d', id, r') && d.requests[id].status.ReqPending?
    requires d'.applied == d.applied + if r'.status.ReqApproved? then [id] else []
    ensures AppliedOnce(d')
  {
  }

  lemma ReplaceKeepsInv(s: Setting, d: Desk, d': Desk, id: Id, r': Request)
    requires Inv(s, d) && Replaces(d, d', id, r') && RequestOk(s, d', r')
    requires d.requests[id].status.ReqPending?
    requires d'.applied == d.applied + if r'.status.ReqApproved? then [id] else []
    ensures Inv(s, d')
  {
    ReplaceKeepsIds(d, d', id, r');
    ReplaceKeepsApplied(d, d', id, r');
    forall x | x in d'.requests ensures RequestOk(s, d', d'.requests[x]) {
      if x != id { ReplaceKeepsOthers(s, d, d', id, r', x); }
    }
  }

  lemma CloseKeepsInv(s: Setting, d: Desk, id: Id, r: Request, status: RequestStatus)
    requires Inv(s, d) && id in d.requests && d.requests[id].status.ReqPending?
    requires r.document == d.requests[id].document && r.payload == d.requests[id].payload
    requires status.ReqRejected? || status.ReqCancelled?
    ensures Inv(s, Close(d, id, r, status))
  {
    assert RequestOk(s, d, d.requests[id]);
    ReplaceKeepsInv(s, d, Close(d, id, r, status), id, r.(status := status));
  }

  lemma ConcludeKeepsInv(s: Setting, d: Desk, id: Id, r: Request)
    requires Inv(s, d) && id in d.requests && d.requests[id].status.ReqPending?
    requires r.document == d.requests[id].document && r.payload == d.requests[id].payload
    requires Conclude(s, d, id, r).Success?
    ensures Inv(s, Conclude(s, d, id, r).value)
  {
    assert RequestOk(s, d, d.requests[id]);
    ReplaceKeepsInv(s, d, Conclude(s, d, id, r).value, id, r.(status := ReqApproved));
  }

  // ── Approval ──

  lemma ApproveKeepsInv(s: Setting, d: Desk, id: Id, user: User)
    requires Inv(s, d) && Approve(s, d, id, user).Success?
    ensures Inv(s, Approve(s, d, id, user).value)
  {
    var r := d.requests[id];
    AdvanceKeepsInv(s, d, id, CurrentRound(RuleFor(s, r.payload), r.approvals), user.id);
  }

  lemma AdvanceKeepsInv(s: Setting, d: Desk, id: Id, round: nat, approver: Id)
    requires Inv(s, d) && id in d.requests && d.requests[id].status.ReqPending?
    requires round == CurrentRound(RuleFor(s, d.requests[id].payload), d.requests[id].approvals)
    requires !HasApproved(d.requests[id].approvals, round, approver)
    requires Advance(s, d, id, d.requests[id].(approvals := WithApproval(d.requests[id].approvals, round, approver)), round).Success?
    ensures Inv(s, Advance(s, d, id, d.requests[id].(approvals := WithApproval(d.requests[id].approvals, round, approver)), round).value)
  {
    var r := d.requests[id];
    var rule := RuleFor(s, r.payload);
    var after := r.(approvals := WithApproval(r.approvals, round, approver));
    var complete := CountIn(after.approvals, round) >= RoundRequired(rule, round);
    if complete && round >= MaxRounds(rule) {
      ConcludeKeepsInv(s, d, id, after);
    } else {
      assert RequestOk(s, d, r);
      ApprovalStaysOrdered(rule, r.approvals, round, approver, complete);
      PendingKeepsInv(s, d, id, after, complete, round);
    }
  }

  /** An approval that does not end the request leaves its rounds in order. */
  lemma ApprovalStaysOrdered(rule: Option<Rule>, approvals: seq<Approval>, round: nat, approver: Id, complete: bool)
    requires FillsInOrder(rule, approvals, round) && !HasApproved(approvals, round, approver)
    requires complete == (CountIn(WithApproval(approvals, round, approver), round) >= RoundRequired(rule, round))
    requires complete ==> round < MaxRounds(rule)
    ensures var next := if complete then round + 1 else round;
            CurrentRound(rule, WithApproval(approvals, round, approver)) == next &&
            FillsInOrder(rule, WithApproval(approvals, round, approver), next)
  {
    NextApprovalFills(rule, approvals, round, approver);
    CurrentRoundIs(rule, WithApproval(approvals, round, approver), if complete then round + 1 else round);
  }

  /** A request that stays pending, with the steps of the next round opened if it has begun. */
  lemma PendingKeepsInv(s: Setting, d: Desk, id: Id, r: Request, complete: bool, round: nat)
    requires Inv(s, d) && id in d.requests && d.requests[id].status.ReqPending? && r.status.ReqPending?
    requires r.document == d.requests[id].document && r.payload == d.requests[id].payload
    requires round == CurrentRound(RuleFor(s, r.payload), d.requests[id].approvals)
    requires CurrentRound(RuleFor(s, r.payload), r.approvals) == if complete then round + 1 else round
    requires FillsInOrder(RuleFor(s, r.payload), r.approvals, if complete then round + 1 else round)
    ensures Inv(s, StayPending(d, id, r, complete, round))
  {
    var d' := StayPending(d, id, r, complete, round);
    assert RequestOk(s, d, d.requests[id]);
    ReplaceKeepsInv(s, d, d', id, r);
  }

  /** What recording an approval does to the requests: the approved one ends iff its last round is
      complete, the others are left alone. */
  lemma AdvanceShape(s: Setting, d: Desk, id: Id, r: Request, round: nat)
    requires id in d.requests && r.status.ReqPending? && Advance(s, d, id, r, round).Success?
    ensures var d' := Advance(s, d, id, r, round).value;
            && d'.requests.Keys == d.requests.Keys
            && d'.requests[id].approvals == r.approvals
            && d'.requests[id].status ==
               (if CountIn(r.approvals, round) >= RoundRequired(RuleFor(s, r.payload), round) && round >= MaxRounds(RuleFor(s, r.payload))
                then ReqApproved else ReqPending)
            && forall x :: x in d.requests && x != id ==> d'.requests[x] == d.requests[x]
  {
  }

  /** Ordinary approval ends a request exactly at the approval that makes them as many as all rounds
      together ask for, and every approval before leaves it pending. */
  lemma ApprovalEndsAtTheSum(s: Setting, d: Desk, id: Id, user: User)
    requires Inv(s, d) && Approve(s, d, id, user).Success?
    ensures var r, r' := d.requests[id], Approve(s, d, id, user).value.requests[id];
            var rule := RuleFor(s, r.payload);
            && id in Approve(s, d, id, user).value.requests
            && |r'.approvals| == |r.approvals| + 1
            && r'.status == (if |r'.approvals| == RequiredUpTo(rule, MaxRounds(rule)) then ReqApproved else ReqPending)
  {
    var r := d.requests[id];
    var rule, round := RuleFor(s, r.payload), CurrentRound(RuleFor(s, r.payload), r.approvals);
    assert RequestOk(s, d, r);
    AdvanceShape(s, d, id, r.(approvals := WithApproval(r.approvals, round, user.id)), round);
    LastApprovalIffSum(rule, r.approvals, round, user.id);
  }

  /** While a request is pending: rounds fill in order, none exceeds what it asks for, nobody approves
      a round twice, and the steps of a round are pending iff it has been reached. */
  lemma PendingRounds(s: Setting, d: Desk, id: Id, r: nat)
    requires Inv(s, d) && id in d.requests && d.requests[id].status.ReqPending? && r >= 1
    ensures var q := d.requests[id];
            var rule, round := RuleFor(s, q.payload), CurrentRound(RuleFor(s, q.payload), q.approvals);
            && CountIn(q.approvals, r) <= RoundRequired(rule, r)
            && (r < round ==> CountIn(q.approvals, r) == RoundRequired(rule, r))
            && (r > round ==> CountIn(q.approvals, r) == 0)
            && |q.approvals| < RequiredUpTo(rule, MaxRounds(rule))
            && StepsFollowRound(d, q, round)
            && (forall i, j :: 0 <= i < j < |q.approvals| && q.approvals[i].round == q.approvals[j].round ==>
                  q.approvals[i].approver != q.approvals[j].approver)
  {
    var q := d.requests[id];
    assert RequestOk(s, d, q);
    var rule, round := RuleFor(s, q.payload), CurrentRound(RuleFor(s, q.payload), q.approvals);
    RoundsNeverExceed(rule, q.approvals, round, r);
    ApprovalsSoFar(rule, q.approvals, round);
  }

  // ── The other operations ──

  lemma RejectKeepsInv(s: Setting, d: Desk, id: Id, user: User)
    requires Inv(s, d)
    ensures Reject(s, d, id, user).Success? ==> Inv(s, Reject(s, d, id, user).value)
  {
    if id in d.requests && d.requests[id].status.ReqPending? {
      var r := d.requests[id];
      var round := CurrentRound(RuleFor(s, r.payload), r.approvals);
      CloseKeepsInv(s, d, id, r.(approvals := r.approvals + [Approval(round, user.id, GaveRejection)]), ReqRejected);
    }
  }

  lemma ForceRejectKeepsInv(s: Setting, d: Desk, id: Id, user: User)
    requires Inv(s, d)
    ensures ForceReject(s, d, id, user).Success? ==> Inv(s, ForceReject(s, d, id, user).value)
  {
    if id in d.requests && d.requests[id].status.ReqPending? {
      var r := d.requests[id];
      CloseKeepsInv(s, d, id, r.(approvals := r.approvals + [Approval(0, user.id, ForcedRejection)]), ReqRejected);
    }
  }

  lemma CancelKeepsInv(s: Setting, d: Desk, id: Id, user: User)
    requires Inv(s, d)
    ensures Cancel(d, id, user).Success? ==> Inv(s, Cancel(d, id, user).value)
  {
    if id in d.requests && d.requests[id].status.ReqPending? {
      CloseKeepsInv(s, d, id, d.requests[id], ReqCancelled);
    }
  }

  lemma ForceApproveKeepsInv(s: Setting, d: Desk, id: Id, user: User)
    requires Inv(s, d) && ForceApprove(s, d, id, user).Success?
    ensures Inv(s, ForceApprove(s, d, id, user).value)
  {
    var r := d.requests[id];
    ConcludeKeepsInv(s, d, id, r.(approvals := r.approvals + [Approval(0, user.id, ForcedApproval)]));
  }

  lemma EditKeepsInv(s: Setting, d: Desk, id: Id, p: Payload, user: User)
    requires Inv(s, d) && Edit(s, d, id, p, user).Success?
    ensures Inv(s, Edit(s, d, id, p, user).value)
  {
    assert RequestOk(s, d, d.requests[id]);
    ReplaceKeepsInv(s, d, Edit(s, d, id, p, user).value, id, d.requests[id].(payload := p));
  }

  lemma {:induction false} BulkKeepsInv(s: Setting, d: Desk, ids: seq<Id>, user: User)
    requires Inv(s, d)
    ensures Inv(s, BulkApprove(s, d, ids, user).0)
    decreases |ids|
  {
    if ids != [] {
      var before := BulkApprove(s, d, ids[..|ids| - 1], user).0;
      BulkKeepsInv(s, d, ids[..|ids| - 1], user);
      if Approve(s, before, ids[|ids| - 1], user).Success? {
        ApproveKeepsInv(s, before, ids[|ids| - 1], user);
      }
    }
  }

  /** A request nobody has approved is in round 1. */
  lemma NewRequestRounds(rule: Option<Rule>)
    ensures FillsInOrder(rule, [], 1) && CurrentRound(rule, []) == 1
  {
    CurrentRoundIs(rule, [], 1);
  }

  lemma {:induction false} LineOpensRoundOne(rounds: seq<int>, dir: Directory, requester: Id)
    requires forall i :: 0 <= i < |rounds| ==> rounds[i] >= 1
    requires BuildLine(rounds, dir, requester).Success?
    ensures var steps := BuildLine(rounds, dir, requester).value;
            |steps| == |rounds| &&
            forall j :: 0 <= j < |steps| ==> steps[j].round == rounds[j] && (steps[j].isPending <==> steps[j].round <= 1)
    decreases |rounds|
  {
    if rounds != [] {
      LineOpensRoundOne(rounds[..|rounds| - 1], dir, requester);
    }
  }

  /** A request that is stored, pending and without a document, in round 1. */
  lemma PostedKeepsInv(s: Setting, d: Desk, requester: Id, p: Payload)
    requires Inv(s, d)
    ensures Inv(s, Post(d, requester, p))
  {
    var id, posted := d.nextRequest, Post(d, requester, p);
    NewRequestRounds(RuleFor(s, p));
    assert id !in d.applied;
    forall x | x in posted.requests ensures RequestOk(s, posted, posted.requests[x]) {
      if x != id {
        assert RequestOk(s, d, d.requests[x]);
      }
    }
  }

  /** Linking a new document with a line that follows round 1. */
  lemma LinkKeepsInv(s: Setting, d: Desk, id: Id, steps: seq<RoundStep>)
    requires Inv(s, d) && id in d.requests && d.requests[id].status.ReqPending?
    requires d.requests[id].document.None? && d.requests[id].approvals == []
    requires forall j :: 0 <= j < |steps| ==> (steps[j].isPending <==> steps[j].round <= 1)
    ensures Inv(s, Link(d, id, steps))
  {
    var r, d' := d.requests[id], Link(d, id, steps);
    NewRequestRounds(RuleFor(s, r.payload));
    forall x | x in d'.requests ensures RequestOk(s, d', d'.requests[x]) {
      assert RequestOk(s, d, d.requests[x]);
      if x != id && d.requests[x].document.Some? {
        assert d.requests[x].document.value in d.docs;
        assert d'.docs[d.requests[x].document.value] == d.docs[d.requests[x].document.value];
      }
    }
    forall a, b | a in d'.requests && b in d'.requests && a != b && d'.requests[a].document.Some?
      ensures d'.requests[a].document != d'.requests[b].document
    {
      assert RequestOk(s, d, d.requests[a]) && RequestOk(s, d, d.requests[b]);
    }
  }

  lemma CreateKeepsInv(s: Setting, d: Desk, requester: Id, p: Payload, hasForm: bool, dir: Directory)
    requires Inv(s, d) && ValidRules(s) && Create(s, d, requester, p, hasForm, dir).Success?
    ensures Inv(s, Create(s, d, requester, p, hasForm, dir).value)
  {
    var id, posted := d.nextRequest, Post(d, requester, p);
    PostedKeepsInv(s, d, requester, p);
    var rule := RuleFor(s, p);
    if rule.Some? && rule.value.isAutoApprove {
      ConcludeKeepsInv(s, posted, id, posted.requests[id]);
    } else if hasForm {
      LineOpensRoundOne(DetailRounds(rule), dir, requester);
      LinkKeepsInv(s, posted, id, BuildLine(DetailRounds(rule), dir, requester).value);
    }
  }

  lemma PerformKeepsInv(s: Setting, d: Desk, op: Operation)
    requires Inv(s, d) && ValidRules(s) && Perform(s, d, op).Success?
    ensures Inv(s, Perform(s, d, op).value)
  {
    match op
    case OpCreate(e, p, f, dir) => CreateKeepsInv(s, d, e, p, f, dir);
    case OpApprove(id, u) => ApproveKeepsInv(s, d, id, u);
    case OpReject(id, u) => RejectKeepsInv(s, d, id, u);
    case OpForceApprove(id, u) => ForceApproveKeepsInv(s, d, id, u);
    case OpForceReject(id, u) => ForceRejectKeepsInv(s, d, id, u);
    case OpCancel(id, u) => CancelKeepsInv(s, d, id, u);
    case OpEdit(id, p, u) => EditKeepsInv(s, d, id, p, u);
    case OpBulkApprove(ids, u) => BulkKeepsInv(s, d, ids, u);
    case OpLedger(_) => OutsideKeepsInv(s, d, Perform(s, d, op).value);
    case OpOutside(_, _) => OutsideKeepsInv(s, d, Perform(s, d, op).value);
  }

  /** What happens outside the requests touches none of them. */
  lemma OutsideKeepsInv(s: Setting, d: Desk, d': Desk)
    requires Inv(s, d) && d' == d.(ledger := d'.ledger, faults := d'.faults)
    ensures Inv(s, d')
  {
    forall x | x in d'.requests ensures RequestOk(s, d', d'.requests[x]) {
      assert RequestOk(s, d, d.requests[x]);
    }
  }

  /** Over every run: rounds fill in order, every document keeps the status and payload of its
      request, and effects are applied exactly once to approved requests and never to others. */
  lemma {:induction false} RunKeepsInv(s: Setting, ops: seq<Operation>)
    requires ValidRules(s)
    ensures Inv(s, Run(s, ops))
    decreases |ops|
  {
    if ops != [] {
      RunKeepsInv(s, ops[..|ops| - 1]);
      if Perform(s, Run(s, ops[..|ops| - 1]), ops[|ops| - 1]).Success? {
        PerformKeepsInv(s, Run(s, ops[..|ops| - 1]), ops[|ops| - 1]);
      }
    }
  }

  ghost predicate Decided(d: Desk, id: Id) {
    id in d.requests && !d.requests[id].status.ReqPending?
  }

  lemma AdvanceLeavesOthers(s: Setting, d: Desk, id: Id, r: Request, round: nat, other: Id)
    requires other in d.requests && other != id && Advance(s, d, id, r, round).Success?
    ensures var d' := Advance(s, d, id, r, round).value;
            other in d'.requests && d'.requests[other] == d.requests[other]
  {
  }

  lemma ApproveIsAdvance(s: Setting, d: Desk, id: Id, user: User) returns (r: Request, round: nat)
    requires Approve(s, d, id, user).Success?
    ensures id in d.requests && d.requests[id].status.ReqPending?
    ensures Approve(s, d, id, user) == Advance(s, d, id, r, round)
  {
    var q := d.requests[id];
    round := CurrentRound(RuleFor(s, q.payload), q.approvals);
    r := q.(approvals := WithApproval(q.approvals, round, user.id));
  }

  lemma ApproveLeavesDecided(s: Setting, d: Desk, x: Id, user: User, id: Id)
    requires Decided(d, id) && Approve(s, d, x, user).Success?
    ensures var d' := Approve(s, d, x, user).value;
            Decided(d', id) && d'.requests[id] == d.requests[id]
  {
    var r, round := ApproveIsAdvance(s, d, x, user);
    AdvanceLeavesOthers(s, d, x, r, round, id);
  }

  lemma {:induction false} BulkLeavesDecided(s: Setting, d: Desk, ids: seq<Id>, user: User, id: Id)
    requires Decided(d, id)
    ensures var d' := BulkApprove(s, d, ids, user).0;
            Decided(d', id) && d'.requests[id] == d.requests[id]
    decreases |ids|
  {
    if ids != [] {
      var n := |ids| - 1;
      BulkLeavesDecided(s, d, ids[..n], user, id);
      var before := BulkApprove(s, d, ids[..n], user).0;
      if Approve(s, before, ids[n], user).Success? {
        ApproveLeavesDecided(s, before, ids[n], user, id);
      }
    }
  }

  lemma PerformLeavesDecided(s: Setting, d: Desk, op: Operation, id: Id)
    requires IdsBelow(d) && Decided(d, id) && Perform(s, d, op).Success?
    ensures var d' := Perform(s, d, op).value;
            Decided(d', id) && d'.requests[id] == d.requests[id]
  {
    match op
    case OpCreate(_, _, _, _) =>
    case OpApprove(x, u) => ApproveLeavesDecided(s, d, x, u, id);
    case OpReject(x, _) => assert x != id;
    case OpForceApprove(x, _) => assert x != id;
    case OpForceReject(x, _) => assert x != id;
    case OpCancel(x, _) => assert x != id;
    case OpEdit(x, _, _) => assert x != id;
    case OpBulkApprove(ids, u) => BulkLeavesDecided(s, d, ids, u, id);
    case OpLedger(_) =>
    case OpOutside(_, _) =>
  }

  /** A decided request keeps its status for good, and its effect is never applied again. */
  lemma DecisionsAreFinal(s: Setting, d: Desk, op: Operation, id: Id)
    requires Inv(s, d) && ValidRules(s) && Decided(d, id) && Perform(s, d, op).Success?
    ensures var d' := Perform(s, d, op).value;
            id in d'.requests && d'.requests[id] == d.requests[id] &&
            Times(d'.applied, id) == Times(d.applied, id)
  {
    PerformKeepsInv(s, d, op);
    PerformLeavesDecided(s, d, op, id);
  }

  // ── The ledger under requests is a run of the ledger ──

  function EffectOf(requester: Id, p: Payload): seq<L.LedgerOp> {
    match p
    case LeaveCreate(t, period) => [L.LeaveCreated(requester, t, period)]
    case LeaveModify(id, change) => [L.LeaveModified(requester, id, change)]
    case LeaveDelete(id) => [L.LeaveDeleted(requester, id)]
    case Other(_, _) => []
  }

  /** The effect of the request that a successful approval of `id` concludes, if it does. */
  function EffectOfApproval(s: Setting, d: Desk, id: Id, user: User): seq<L.LedgerOp> {
    match Approve(s, d, id, user)
    case Failure(_) => []
    case Success(after) =>
      if id in after.requests && after.requests[id].status.ReqApproved?
      then EffectOf(after.requests[id].requester, after.requests[id].payload)
      else []
  }

  function EffectsOfBulk(s: Setting, d: Desk, ids: seq<Id>, user: User): seq<L.LedgerOp> {
    if ids == [] then [] else
    EffectsOfBulk(s, d, ids[..|ids| - 1], user) +
      EffectOfApproval(s, BulkApprove(s, d, ids[..|ids| - 1], user).0, ids[|ids| - 1], user)
  }

  /** The ledger operations of the requests that a call concludes. */
  function RequestEffects(s: Setting, d: Desk, op: Operation): seq<L.LedgerOp> {
    if Perform(s, d, op).Failure? then [] else
    match op
    case OpCreate(e, p, _, _) =>
      var rule := RuleFor(s, p);
      if rule.Some? && rule.value.isAutoApprove then EffectOf(e, p) else []
    case OpApprove(id, u) => EffectOfApproval(s, d, id, u)
    case OpForceApprove(id, u) =>
      var r := LoadPending(d, id);
      if r.Success? then EffectOf(r.value.requester, r.value.payload) else []
    case OpBulkApprove(ids, u) => EffectsOfBulk(s, d, ids, u)
    case _ => []
  }

  /** The ledger operations a call amounts to: those of requests, or one of another module. */
  function Effects(s: Setting, d: Desk, op: Operation): seq<L.LedgerOp> {
    if op.OpLedger? then [op.op] else RequestEffects(s, d, op)
  }

  function Trace(s: Setting, ops: seq<Operation>): seq<L.LedgerOp> {
    if ops == [] then []
    else Trace(s, ops[..|ops| - 1]) + Effects(s, Run(s, ops[..|ops| - 1]), ops[|ops| - 1])
  }

  /** The part of the trace that comes from requests. */
  function RequestTrace(s: Setting, ops: seq<Operation>): seq<L.LedgerOp> {
    if ops == [] then []
    else RequestTrace(s, ops[..|ops| - 1]) + RequestEffects(s, Run(s, ops[..|ops| - 1]), ops[|ops| - 1])
  }

  lemma {:induction false} RunAppends(ledger: L.Ledger, cat: L.Catalogue, cal: L.Calendar,
                                      a: seq<L.LedgerOp>, b: seq<L.LedgerOp>)
    ensures L.Run(ledger, cat, cal, a + b) == L.Run(L.Run(ledger, cat, cal, a), cat, cal, b)
    decreases |b|
  {
    if b == [] {
      assert a + b == a;
    } else {
      assert (a + b)[..|a + b| - 1] == a + b[..|b| - 1];
      RunAppends(ledger, cat, cal, a, b[..|b| - 1]);
    }
  }

  lemma ConcludeIsEffect(s: Setting, d: Desk, id: Id, r: Request)
    requires Conclude(s, d, id, r).Success?
    ensures Conclude(s, d, id, r).value.ledger ==
            L.Run(d.ledger, s.cat, s.cal, EffectOf(r.requester, r.payload))
  {
    var effect := EffectOf(r.requester, r.payload);
    if effect != [] {
      assert effect[..0] == [];
    }
  }

  lemma ApproveIsEffect(s: Setting, d: Desk, id: Id, user: User)
    requires Approve(s, d, id, user).Success?
    ensures Approve(s, d, id, user).value.ledger ==
            L.Run(d.ledger, s.cat, s.cal, EffectOfApproval(s, d, id, user))
  {
    var r := d.requests[id];
    var rule := RuleFor(s, r.payload);
    var round := CurrentRound(rule, r.approvals);
    var after := r.(approvals := WithApproval(r.approvals, round, user.id));
    if CountIn(after.approvals, round) >= RoundRequired(rule, round) && round >= MaxRounds(rule) {
      ConcludeIsEffect(s, d, id, after);
    }
  }

  lemma {:induction false} BulkIsEffects(s: Setting, d: Desk, ids: seq<Id>, user: User)
    ensures BulkApprove(s, d, ids, user).0.ledger ==
            L.Run(d.ledger, s.cat, s.cal, EffectsOfBulk(s, d, ids, user))
    decreases |ids|
  {
    if ids != [] {
      var most, last := ids[..|ids| - 1], ids[|ids| - 1];
      BulkIsEffects(s, d, most, user);
      var before := BulkApprove(s, d, most, user).0;
      if Approve(s, before, last, user).Success? {
        ApproveIsEffect(s, before, last, user);
      }
      RunAppends(d.ledger, s.cat, s.cal, EffectsOfBulk(s, d, most, user),
                 EffectOfApproval(s, before, last, user));
    }
  }

  lemma PerformIsEffects(s: Setting, d: Desk, op: Operation)
    requires Perform(s, d, op).Success?
    ensures Perform(s, d, op).value.ledger == L.Run(d.ledger, s.cat, s.cal, Effects(s, d, op))
  {
    match op
    case OpCreate(e, p, f, dir) =>
      var rule := RuleFor(s, p);
      if rule.Some? && rule.value.isAutoApprove {
        var posted := Post(d, e, p);
        ConcludeIsEffect(s, posted, d.nextRequest, posted.requests[d.nextRequest]);
      }
    case OpApprove(id, u) => ApproveIsEffect(s, d, id, u);
    case OpForceApprove(id, u) =>
      var r := d.requests[id];
      ConcludeIsEffect(s, d, id, r.(approvals := r.approvals + [Approval(0, u.id, ForcedApproval)]));
    case OpBulkApprove(ids, u) => BulkIsEffects(s, d, ids, u);
    case OpLedger(lop) => assert [lop][..0] == [];
    case OpOutside(_, _) =>
    case _ =>
  }

  /** The ledger after any run is the ledger after the effects of the concluded requests and the
      other modules' operations, each once and in order. */
  lemma {:induction false} LedgerFollowsTrace(s: Setting, ops: seq<Operation>)
    ensures Run(s, ops).ledger == L.Run(L.EMPTY_LEDGER, s.cat, s.cal, Trace(s, ops))
    decreases |ops|
  {
    if ops != [] {
      var most, last := ops[..|ops| - 1], ops[|ops| - 1];
      LedgerFollowsTrace(s, most);
      StepLedger(s, Run(s, most), last, Trace(s, most));
    }
  }

  /** One call, successful or not. */
  lemma StepLedger(s: Setting, d: Desk, op: Operation, trace: seq<L.LedgerOp>)
    requires d.ledger == L.Run(L.EMPTY_LEDGER, s.cat, s.cal, trace)
    ensures (match Perform(s, d, op) case Success(after) => after case Failure(_) => d).ledger ==
            L.Run(L.EMPTY_LEDGER, s.cat, s.cal, trace + Effects(s, d, op))
  {
    if Perform(s, d, op).Success? {
      LedgerNext(s, d, op, trace);
    } else {
      FailureHasNoEffects(s, d, op);
      assert trace + [] == trace;
    }
  }

  lemma FailureHasNoEffects(s: Setting, d: Desk, op: Operation)
    requires Perform(s, d, op).Failure?
    ensures Effects(s, d, op) == []
  {
  }

  lemma LedgerNext(s: Setting, d: Desk, op: Operation, trace: seq<L.LedgerOp>)
    requires Perform(s, d, op).Success? && d.ledger == L.Run(L.EMPTY_LEDGER, s.cat, s.cal, trace)
    ensures Perform(s, d, op).value.ledger == L.Run(L.EMPTY_LEDGER, s.cat, s.cal, trace + Effects(s, d, op))
  {
    PerformIsEffects(s, d, op);
    RunAppends(L.EMPTY_LEDGER, s.cat, s.cal, trace, Effects(s, d, op));
  }

  /** So every balance is conserved under requests, grants, accrual and expiry together, and as long
      as leaves change within their year its used days are those of its live leaves. */
  lemma LedgerUnderRequests(s: Setting, ops: seq<Operation>, key: L.Key)
    requires key in Run(s, ops).ledger.balances
    ensures var b := Run(s, ops).ledger.balances[key];
            b.accrued == b.used + b.remaining +
              LL.ForfeitedOver(L.EMPTY_LEDGER, s.cat, s.cal, Trace(s, ops), key)
    ensures var ledger := Run(s, ops).ledger;
            LL.TameRun(L.EMPTY_LEDGER, s.cat, s.cal, Trace(s, ops)) ==>
              ledger.balances[key].used == LL.SumCharged(s.cat, ledger.leaves, key, ledger.nextLeave)
  {
    LedgerFollowsTrace(s, ops);
    LL.LedgerConserves(s.cat, s.cal, Trace(s, ops), key);
    if LL.TameRun(L.EMPTY_LEDGER, s.cat, s.cal, Trace(s, ops)) {
      LL.UsedIsSumOfLeaves(L.EMPTY_LEDGER, s.cat, s.cal, Trace(s, ops));
    }
  }

  // ── The log of applied requests and the ledger ──

  /** What the requests of a log do to the ledger, in the order of the log. */
  function EffectsOfLog(d: Desk, log: seq<Id>): seq<L.LedgerOp> {
    if log == [] then [] else EffectsOfLog(d, log[..|log| - 1]) + EffectOfRequest(d, log[|log| - 1])
  }

  function EffectOfRequest(d: Desk, id: Id): seq<L.LedgerOp> {
    if id in d.requests then EffectOf(d.requests[id].requester, d.requests[id].payload) else []
  }

  lemma EffectsNext(d: Desk, log: seq<Id>, id: Id)
    ensures EffectsOfLog(d, log + [id]) == EffectsOfLog(d, log) + EffectOfRequest(d, id)
  {
    assert (log + [id])[..|log|] == log;
  }

  lemma ThreeParts(a: seq<L.LedgerOp>, b: seq<L.LedgerOp>, c: seq<L.LedgerOp>)
    ensures (a + b) + c == a + (b + c)
  {
  }

  ghost predicate AllApproved(d: Desk, log: seq<Id>) {
    forall k :: 0 <= k < |log| ==> log[k] in d.requests && d.requests[log[k]].status.ReqApproved?
  }

  lemma LastApart(a: seq<Id>, b: seq<Id>)
    requires b != []
    ensures a + b == (a + b[..|b| - 1]) + [b[|b| - 1]]
  {
  }

  lemma {:induction false} EffectsConcat(d: Desk, a: seq<Id>, b: seq<Id>)
    ensures EffectsOfLog(d, a + b) == EffectsOfLog(d, a) + EffectsOfLog(d, b)
    decreases |b|
  {
    if b == [] {
      assert a + b == a;
    } else {
      var most, last := b[..|b| - 1], b[|b| - 1];
      EffectsConcat(d, a, most);
      EffectsNext(d, a + most, last);
      ThreeParts(EffectsOfLog(d, a), EffectsOfLog(d, most), EffectOfRequest(d, last));
      LastApart(a, b);
    }
  }

  /** The requests of the log are as they were. */
  ghost predicate SameOn(d: Desk, d': Desk, log: seq<Id>) {
    forall k :: 0 <= k < |log| ==> log[k] in d.requests && log[k] in d'.requests && d'.requests[log[k]] == d.requests[log[k]]
  }

  lemma {:induction false} EffectsSame(d: Desk, d': Desk, log: seq<Id>)
    requires SameOn(d, d', log)
    ensures EffectsOfLog(d', log) == EffectsOfLog(d, log)
  {
    if log != [] { EffectsSame(d, d', log[..|log| - 1]); }
  }

  /** `d'` is `d` after some requests more were applied, the effects of which are `effects`. */
  ghost predicate Logs(d: Desk, d': Desk, more: seq<Id>, effects: seq<L.LedgerOp>) {
    d'.applied == d.applied + more && AllApproved(d', more) && EffectsOfLog(d', more) == effects
  }

  lemma NothingLogged(d: Desk, d': Desk)
    requires d'.applied == d.applied
    ensures Logs(d, d', [], [])
  {
  }

  lemma ConcludeLogs(s: Setting, d: Desk, id: Id, r: Request)
    requires Conclude(s, d, id, r).Success?
    ensures Logs(d, Conclude(s, d, id, r).value, [id], EffectOf(r.requester, r.payload))
  {
    assert [id][..0] == [];
  }

  lemma ApproveLogs(s: Setting, d: Desk, id: Id, user: User) returns (more: seq<Id>)
    requires Approve(s, d, id, user).Success?
    ensures Logs(d, Approve(s, d, id, user).value, more, EffectOfApproval(s, d, id, user))
  {
    var r, d' := d.requests[id], Approve(s, d, id, user).value;
    var round := CurrentRound(RuleFor(s, r.payload), r.approvals);
    var after := r.(approvals := WithApproval(r.approvals, round, user.id));
    if CountIn(after.approvals, round) >= RoundRequired(RuleFor(s, r.payload), round) && round >= MaxRounds(RuleFor(s, r.payload)) {
      ConcludeLogs(s, d, id, after);
      more := [id];
    } else {
      NothingLogged(d, d');
      more := [];
    }
  }

  /** Two steps of logging, the second of which leaves what the first logged. */
  lemma LogsTwice(a: Desk, b: Desk, c: Desk, first: seq<Id>, second: seq<Id>, e1: seq<L.LedgerOp>, e2: seq<L.LedgerOp>)
    requires Logs(a, b, first, e1) && Logs(b, c, second, e2) && SameOn(b, c, first)
    ensures Logs(a, c, first + second, e1 + e2)
  {
    EffectsSame(b, c, first);
    EffectsConcat(c, first, second);
    AppliedThreeParts(a.applied, first, second);
    forall k | 0 <= k < |first + second| ensures (first + second)[k] in c.requests && c.requests[(first + second)[k]].status.ReqApproved? {
      if k >= |first| { assert (first + second)[k] == second[k - |first|]; }
    }
  }

  lemma AppliedThreeParts(a: seq<Id>, b: seq<Id>, c: seq<Id>)
    ensures (a + b) + c == a + (b + c)
  {
  }

  lemma {:induction false} BulkLogs(s: Setting, d: Desk, ids: seq<Id>, user: User) returns (more: seq<Id>)
    ensures Logs(d, BulkApprove(s, d, ids, user).0, more, EffectsOfBulk(s, d, ids, user))
    decreases |ids|
  {
    if ids == [] {
      NothingLogged(d, d);
      more := [];
    } else {
      var most, last := ids[..|ids| - 1], ids[|ids| - 1];
      var first := BulkLogs(s, d, most, user);
      var before := BulkApprove(s, d, most, user).0;
      if Approve(s, before, last, user).Success? {
        var second := ApproveLogs(s, before, last, user);
        forall k | 0 <= k < |first|
          ensures first[k] in Approve(s, before, last, user).value.requests &&
                  Approve(s, before, last, user).value.requests[first[k]] == before.requests[first[k]]
        {
          ApproveLeavesDecided(s, before, last, user, first[k]);
        }
        LogsTwice(d, before, Approve(s, before, last, user).value, first, second,
                  EffectsOfBulk(s, d, most, user), EffectOfApproval(s, before, last, user));
        more := first + second;
      } else {
        more := first;
        assert EffectsOfBulk(s, d, ids, user) == EffectsOfBulk(s, d, most, user);
      }
    }
  }

  lemma PerformLogs(s: Setting, d: Desk, op: Operation) returns (more: seq<Id>)
    requires Perform(s, d, op).Success?
    ensures Logs(d, Perform(s, d, op).value, more, RequestEffects(s, d, op))
  {
    var d' := Perform(s, d, op).value;
    match op
    case OpApprove(id, u) => more := ApproveLogs(s, d, id, u);
    case OpBulkApprove(ids, u) => more := BulkLogs(s, d, ids, u);
    case OpForceApprove(id, u) =>
      var r := d.requests[id];
      ConcludeLogs(s, d, id, r.(approvals := r.approvals + [Approval(0, u.id, ForcedApproval)]));
      more := [id];
    case OpCreate(e, p, f, dir) =>
      if RuleFor(s, p).Some? && RuleFor(s, p).value.isAutoApprove {
        var posted := Post(d, e, p);
        ConcludeLogs(s, posted, d.nextRequest, posted.requests[d.nextRequest]);
        more := [d.nextRequest];
      } else {
        NothingLogged(d, d');
        more := [];
      }
    case _ =>
      NothingLogged(d, d');
      more := [];
  }

  /** Over every run the ledger operations that requests cause are those of the applied requests, each
      once and in the order they were applied. */
  lemma {:induction false} RequestsInTrace(s: Setting, ops: seq<Operation>)
    requires ValidRules(s)
    ensures RequestTrace(s, ops) == EffectsOfLog(Run(s, ops), Run(s, ops).applied)
    ensures AllApproved(Run(s, ops), Run(s, ops).applied)
    decreases |ops|
  {
    if ops != [] {
      var most, last := ops[..|ops| - 1], ops[|ops| - 1];
      RequestsInTrace(s, most);
      RunKeepsInv(s, most);
      var before := Run(s, most);
      if Perform(s, before, last).Success? { TraceNext(s, before, last, RequestTrace(s, most)); }
    }
  }

  lemma TraceNext(s: Setting, d: Desk, op: Operation, trace: seq<L.LedgerOp>)
    requires Inv(s, d) && Perform(s, d, op).Success?
    requires trace == EffectsOfLog(d, d.applied) && AllApproved(d, d.applied)
    ensures var d' := Perform(s, d, op).value;
            trace + RequestEffects(s, d, op) == EffectsOfLog(d', d'.applied) && AllApproved(d', d'.applied)
  {
    var d' := Perform(s, d, op).value;
    var more := PerformLogs(s, d, op);
    AppliedStay(s, d, op);
    EffectsSame(d, d', d.applied);
    EffectsConcat(d', d.applied, more);
    ApprovedTogether(d', d.applied, more);
  }

  lemma ApprovedTogether(d: Desk, a: seq<Id>, b: seq<Id>)
    requires AllApproved(d, a) && AllApproved(d, b)
    ensures AllApproved(d, a + b)
  {
  }

  lemma AppliedStay(s: Setting, d: Desk, op: Operation)
    requires Inv(s, d) && Perform(s, d, op).Success? && AllApproved(d, d.applied)
    ensures SameOn(d, Perform(s, d, op).value, d.applied) && AllApproved(Perform(s, d, op).value, d.applied)
  {
    forall k | 0 <= k < |d.applied|
      ensures d.applied[k] in Perform(s, d, op).value.requests &&
              Perform(s, d, op).value.requests[d.applied[k]] == d.requests[d.applied[k]]
    {
      PerformLeavesDecided(s, d, op, d.applied[k]);
    }
  }
}
