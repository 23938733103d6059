/**
 * HR requests: creation, approval in rounds, forced decisions, cancellation and editing, each as a
 * function of the company's requests, their documents and the leave ledger. The last approval
 * applies the request to the ledger in the same transaction.
 */
module RequestDesk {
  import opened Wrappers
  import opened RequestRounds
  import L = LeaveLedger

  datatype RequestStatus = ReqPending | ReqApproved | ReqRejected | ReqCancelled

  /** What is asked for; the last constructor stands for the shift and attendance kinds, which do not
      touch the ledger and whose content is a number here. */
  datatype Payload =
    | LeaveCreate(typeId: Id, period: L.Period)
    | LeaveModify(leave: nat, change: L.Change)
    | LeaveDelete(leave: nat)
    | Other(kind: nat, content: nat)

  datatype RequestKind = KindCreate | KindModify | KindDelete | KindOther(other: nat)

  function KindOf(p: Payload): RequestKind {
    match p
    case LeaveCreate(_, _) => KindCreate
    case LeaveModify(_, _) => KindModify
    case LeaveDelete(_) => KindDelete
    case Other(k, _) => KindOther(k)
  }

  datatype Request = Request(requester: Id, payload: Payload, status: RequestStatus,
                             document: Option<Id>, approvals: seq<Approval>)

  /** A step of a request's document, role APPROVER_R{round}. */
  datatype RoundStep = RoundStep(round: int, assignee: Id, isPending: bool)

  datatype HrDoc = HrDoc(status: RequestStatus, content: Payload, steps: seq<RoundStep>)

  /** Why the effect of a shift or attendance request can throw. */
  datatype OtherFault =
    | EmployeeOrganizationNotFound | ShiftTemplateNotFound | ShiftTypeNotFound | ShiftNotFound
    | AttendanceNotFound | AttendanceAlreadyConfirmed | PayloadInvalid

  /** `applied` logs every request whose effect was applied; `faults` says which contents of shift and
      attendance requests would throw if applied now. */
  datatype Desk = Desk(requests: map<Id, Request>, docs: map<Id, HrDoc>, ledger: L.Ledger,
                       applied: seq<Id>, nextRequest: Id, nextDoc: Id, faults: map<nat, OtherFault>)

  datatype Access = Employee | OrgAdmin | GeneralAdmin | SuperAdmin

  datatype User = User(id: Id, access: Access)

  /** What stays fixed: leave types, calendar, rules by kind, and the departments of employees. */
  datatype Setting = Setting(cat: L.Catalogue, cal: L.Calendar, rules: map<RequestKind, Rule>,
                             orgsOf: map<Id, set<Id>>)

  datatype RequestError =
    | RequestNotFound | RequestNotPending | RequestSelfApproval | NotAnApprover
    | RequestAlreadyApproved | SuperAdminOnly | RequestNotOwn | RequestKindFixed
    | NoApprover | LeaveFault(fault: L.LeaveError) | EffectFault(otherFault: OtherFault)

  type Answer = Result<Desk, RequestError>

  function RuleFor(s: Setting, p: Payload): Option<Rule> {
    if KindOf(p) in s.rules then Some(s.rules[KindOf(p)]) else None
  }

  // ── Guards ──

  function LoadPending(d: Desk, id: Id): (r: Result<Request, RequestError>)
    ensures r.Success? ==> id in d.requests && r.value == d.requests[id] && r.value.status.ReqPending?
  {
    if id !in d.requests then Failure(RequestNotFound)
    else if !d.requests[id].status.ReqPending? then Failure(RequestNotPending)
    else Success(d.requests[id])
  }

  function OrgsOf(s: Setting, employee: Id): set<Id> {
    if employee in s.orgsOf then s.orgsOf[employee] else {}
  }

  predicate HasPendingStep(d: Desk, document: Option<Id>, employee: Id) {
    document.Some? && document.value in d.docs &&
    exists j :: 0 <= j < |d.docs[document.value].steps| &&
      d.docs[document.value].steps[j].isPending && d.docs[document.value].steps[j].assignee == employee
  }

  function IsApprover(s: Setting, d: Desk, r: Request, user: User): Outcome<RequestError> {
    if user.id == r.requester then Fail(RequestSelfApproval)
    else if user.access.SuperAdmin? || user.access.GeneralAdmin? then Pass
    else if user.access.OrgAdmin? && OrgsOf(s, user.id) * OrgsOf(s, r.requester) != {} then Pass
    else if HasPendingStep(d, r.document, user.id) then Pass
    else Fail(NotAnApprover)
  }

  // ── Effects ──

  function OfLedger(r: Result<L.Ledger, L.LeaveError>): Result<L.Ledger, RequestError> {
    match r
    case Success(ledger) => Success(ledger)
    case Failure(e) => Failure(LeaveFault(e))
  }

  function ApplyApproved(s: Setting, ledger: L.Ledger, faults: map<nat, OtherFault>, requester: Id, p: Payload): Result<L.Ledger, RequestError> {
    match p
    case LeaveCreate(t, period) => OfLedger(L.ApplyLeaveCreate(ledger, s.cat, s.cal, requester, t, period))
    case LeaveModify(id, change) => OfLedger(L.ApplyLeaveModify(ledger, s.cat, s.cal, requester, id, change))
    case LeaveDelete(id) => OfLedger(L.ApplyLeaveDelete(ledger, s.cat, requester, id))
    case Other(_, content) => if content in faults then Failure(EffectFault(faults[content])) else Success(ledger)
  }

  /** The check made before a request is accepted or edited. */
  function Prevalidate(s: Setting, ledger: L.Ledger, requester: Id, p: Payload): Outcome<L.LeaveError> {
    match p
    case LeaveCreate(t, period) => L.ValidateLeaveRequest(ledger, s.cat, s.cal, requester, t, period)
    case _ => Pass
  }

  function SetDocStatus(docs: map<Id, HrDoc>, document: Option<Id>, status: RequestStatus): map<Id, HrDoc> {
    if document.Some? && document.value in docs then
      docs[document.value := docs[document.value].(status := status)]
    else docs
  }

  /** The request and its document get their final status. */
  function Close(d: Desk, id: Id, r: Request, status: RequestStatus): Desk {
    d.(requests := d.requests[id := r.(status := status)],
       docs := SetDocStatus(d.docs, r.document, status))
  }

  /** Approve the request for good and apply it, or fail as a whole. */
  function Conclude(s: Setting, d: Desk, id: Id, r: Request): Answer {
    match ApplyApproved(s, d.ledger, d.faults, r.requester, r.payload)
    case Failure(e) => Failure(e)
    case Success(ledger) =>
      Success(Close(d, id, r, ReqApproved).(ledger := ledger, applied := d.applied + [id]))
  }

  function OpenRound(steps: seq<RoundStep>, round: int): (r: seq<RoundStep>)
    ensures |r| == |steps|
    ensures forall j :: 0 <= j < |steps| ==>
      r[j] == if steps[j].round == round then steps[j].(isPending := true) else steps[j]
  {
    seq(|steps|, j requires 0 <= j < |steps| =>
      if steps[j].round == round then steps[j].(isPending := true) else steps[j])
  }

  function OpenRoundOf(docs: map<Id, HrDoc>, document: Option<Id>, round: int): map<Id, HrDoc> {
    if document.Some? && document.value in docs then
      var doc := docs[document.value];
      docs[document.value := doc.(steps := OpenRound(doc.steps, round))]
    else docs
  }

  // ── Decisions ──

  /** The request stays pending; when its round is complete the steps of the next one open. */
  function StayPending(d: Desk, id: Id, r: Request, complete: bool, round: int): Desk {
    d.(requests := d.requests[id := r],
       docs := if complete then OpenRoundOf(d.docs, r.document, round + 1) else d.docs)
  }

  /** After an approval of `round` was recorded in `r`: conclude after the last round, open the next
      round after a complete one. */
  function Advance(s: Setting, d: Desk, id: Id, r: Request, round: nat): Answer {
    var rule := RuleFor(s, r.payload);
    var complete := CountIn(r.approvals, round) >= RoundRequired(rule, round);
    var isLast := round >= MaxRounds(rule);
    if complete && isLast then Conclude(s, d, id, r) else Success(StayPending(d, id, r, complete, round))
  }

  function Approve(s: Setting, d: Desk, id: Id, user: User): Answer {
    var r :- LoadPending(d, id);
    :- IsApprover(s, d, r, user);
    var round := CurrentRound(RuleFor(s, r.payload), r.approvals);
    :- Need(!HasApproved(r.approvals, round, user.id), RequestAlreadyApproved);
    Advance(s, d, id, r.(approvals := WithApproval(r.approvals, round, user.id)), round)
  }

  function Reject(s: Setting, d: Desk, id: Id, user: User): Answer {
    var r :- LoadPending(d, id);
    :- IsApprover(s, d, r, user);
    var round := CurrentRound(RuleFor(s, r.payload), r.approvals);
    var after := r.(approvals := r.approvals + [Approval(round, user.id, GaveRejection)]);
    Success(Close(d, id, after, ReqRejected))
  }

  function ForceApprove(s: Setting, d: Desk, id: Id, user: User): Answer {
    if !user.access.SuperAdmin? then Failure(SuperAdminOnly) else
    var r :- LoadPending(d, id);
    Conclude(s, d, id, r.(approvals := r.approvals + [Approval(0, user.id, ForcedApproval)]))
  }

  function ForceReject(s: Setting, d: Desk, id: Id, user: User): Answer {
    if !user.access.SuperAdmin? then Failure(SuperAdminOnly) else
    var r :- LoadPending(d, id);
    var after := r.(approvals := r.approvals + [Approval(0, user.id, ForcedRejection)]);
    Success(Close(d, id, after, ReqRejected))
  }

  /** Approve a list of requests one after the other; a failure does not stop the others. */
  function BulkApprove(s: Setting, d: Desk, ids: seq<Id>, user: User): (Desk, seq<bool>) {
    if ids == [] then (d, []) else
    var (before, results) := BulkApprove(s, d, ids[..|ids| - 1], user);
    match Approve(s, before, ids[|ids| - 1], user)
    case Success(after) => (after, results + [true])
    case Failure(_) => (before, results + [false])
  }

  // ── The requester ──

  function Cancel(d: Desk, id: Id, user: User): Answer {
    if id !in d.requests then Failure(RequestNotFound) else
    var r := d.requests[id];
    :- Need(r.requester == user.id, RequestNotOwn);
    :- Need(r.status.ReqPending?, RequestNotPending);
    Success(Close(d, id, r, ReqCancelled))
  }

  function SetDocContent(docs: map<Id, HrDoc>, document: Option<Id>, p: Payload): map<Id, HrDoc> {
    if document.Some? && document.value in docs then
      docs[document.value := docs[document.value].(content := p)]
    else docs
  }

  /** Replace the payload of a pending request, and the body of its document with it. */
  function Edit(s: Setting, d: Desk, id: Id, p: Payload, user: User): Answer {
    if id !in d.requests then Failure(RequestNotFound) else
    var r := d.requests[id];
    :- Need(r.requester == user.id, RequestNotOwn);
    :- Need(r.status.ReqPending?, RequestNotPending);
    :- Need(KindOf(p) == KindOf(r.payload), RequestKindFixed);
    match Prevalidate(s, d.ledger, r.requester, p)
    case Fail(e) => Failure(LeaveFault(e))
    case Pass =>
      Success(d.(requests := d.requests[id := r.(payload := p)],
                 docs := SetDocContent(d.docs, r.document, p)))
  }

  /** Who is looked up as approver: the holder of a detail's position, the department's
      administrator, any administrator other than the requester. */
  datatype Directory = Directory(byDetail: seq<Option<Id>>, department: Option<Id>, admin: Option<Id>)

  function Assignee(holder: Option<Id>, dir: Directory, requester: Id): Option<Id> {
    if holder.Some? then holder
    else if dir.department.Some? && dir.department.value != requester then dir.department
    else dir.admin
  }

  function DetailRounds(rule: Option<Rule>): seq<int> {
    var details := DetailsOf(rule);
    if details == [] then [1] else seq(|details|, i requires 0 <= i < |details| => details[i].round)
  }

  /** One step per detail; the steps of round 1 are pending, the others wait. */
  function BuildLine(rounds: seq<int>, dir: Directory, requester: Id): Result<seq<RoundStep>, RequestError> {
    if rounds == [] then Success([]) else
    var n := |rounds| - 1;
    var before :- BuildLine(rounds[..n], dir, requester);
    var holder := if n < |dir.byDetail| then dir.byDetail[n] else None;
    match Assignee(holder, dir, requester)
    case None => Failure(NoApprover)
    case Some(a) => Success(before + [RoundStep(rounds[n], a, rounds[n] == 1)])
  }

  /** Store a pending request. */
  function Post(d: Desk, requester: Id, p: Payload): Desk {
    d.(requests := d.requests[d.nextRequest := Request(requester, p, ReqPending, None, [])],
       nextRequest := d.nextRequest + 1)
  }

  /** Give a stored request a document with the line. */
  function Link(d: Desk, id: Id, steps: seq<RoundStep>): Desk
    requires id in d.requests
  {
    var r := d.requests[id];
    d.(requests := d.requests[id := r.(document := Some(d.nextDoc))],
       docs := d.docs[d.nextDoc := HrDoc(ReqPending, r.payload, steps)],
       nextDoc := d.nextDoc + 1)
  }

  /** A new request: approved at once if its rule says so, else pending, with a document and a line
      if the company has a form for it. */
  function Create(s: Setting, d: Desk, requester: Id, p: Payload, hasForm: bool, dir: Directory): Answer {
    match Prevalidate(s, d.ledger, requester, p)
    case Fail(e) => Failure(LeaveFault(e))
    case Pass =>
      var rule, id, posted := RuleFor(s, p), d.nextRequest, Post(d, requester, p);
      if rule.Some? && rule.value.isAutoApprove then Conclude(s, posted, id, posted.requests[id])
      else if !hasForm then Success(posted)
      else
        var steps :- BuildLine(DetailRounds(rule), dir, requester);
        Success(Link(posted, id, steps))
  }

  // ── Runs ──

  datatype Operation =
    | OpCreate(requester: Id, payload: Payload, hasForm: bool, dir: Directory)
    | OpApprove(id: Id, user: User)
    | OpReject(id: Id, user: User)
    | OpForceApprove(id: Id, user: User)
    | OpForceReject(id: Id, user: User)
    | OpCancel(id: Id, user: User)
    | OpEdit(id: Id, payload: Payload, user: User)
    | OpBulkApprove(ids: seq<Id>, user: User)
    | OpLedger(op: L.LedgerOp)
    | OpOutside(content: nat, fault: Option<OtherFault>)

  /** Besides the requests: ledger operations of other modules (grants, accrual, expiry, administrators'
      leaves), and changes of shifts and attendance that make an effect throw or stop throwing. */
  function Perform(s: Setting, d: Desk, op: Operation): Answer {
    match op
    case OpCreate(e, p, f, dir) => Create(s, d, e, p, f, dir)
    case OpApprove(id, u) => Approve(s, d, id, u)
    case OpReject(id, u) => Reject(s, d, id, u)
    case OpForceApprove(id, u) => ForceApprove(s, d, id, u)
    case OpForceReject(id, u) => ForceReject(s, d, id, u)
    case OpCancel(id, u) => Cancel(d, id, u)
    case OpEdit(id, p, u) => Edit(s, d, id, p, u)
    case OpBulkApprove(ids, u) => Success(BulkApprove(s, d, ids, u).0)
    case OpLedger(lop) => Success(d.(ledger := L.Settle(d.ledger, s.cat, s.cal, lop)))
    case OpOutside(content, fault) =>
      Success(d.(faults := if fault.Some? then d.faults[content := fault.value] else d.faults - {content}))
  }

  const EMPTY_DESK := Desk(map[], map[], L.EMPTY_LEDGER, [], 0, 0, map[])

  function Run(s: Setting, ops: seq<Operation>): Desk {
    if ops == [] then EMPTY_DESK else
    var before := Run(s, ops[..|ops| - 1]);
    match Perform(s, before, ops[|ops| - 1])
    case Success(after) => after
    case Failure(_) => before
  }
}
