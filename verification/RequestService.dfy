/**
 * The requests service over its stored rows. A method that throws inside its transaction puts the
 * rows back; each method is proved to answer as the transition it implements.
 */
module RequestService {
  import opened Wrappers
  import opened RequestRounds
  import opened RequestDesk
  import L = LeaveLedger
  import opened LeaveStore
  import opened RequestLaws

  class Service {
    const s: Setting
    const store: Store
    var requests: map<Id, Request>
    var docs: map<Id, HrDoc>
    var nextRequest: Id
    var nextDoc: Id
    var faults: map<nat, OtherFault>
    ghost var applied: seq<Id>

    ghost function View(): Desk
      reads this, store
    {
      Desk(requests, docs, store.View(), applied, nextRequest, nextDoc, faults)
    }

    ghost predicate Valid()
      reads this, store
    {
      store.cat == s.cat && store.cal == s.cal && ValidRules(s) && Inv(s, View())
    }

    ghost predicate Answers(was: Desk, spec: Answer, r: Outcome<RequestError>)
      reads this, store
    {
      match spec
      case Success(after) => r.Pass? && View() == after
      case Failure(e) => r == Fail(e) && View() == was
    }

    constructor (s: Setting)
      requires ValidRules(s)
      ensures Valid() && View() == EMPTY_DESK && fresh(store)
    {
      this.s := s;
      var leaves := new Store(s.cat, s.cal);
      store := leaves;
      requests, docs, nextRequest, nextDoc, applied := map[], map[], 0, 0, [];
      faults := map[];
    }

    method LoadPendingRequest(id: Id) returns (r: Result<Request, RequestError>)
      ensures r == LoadPending(View(), id)
    {
      if id !in requests { return Failure(RequestNotFound); }
      if !requests[id].status.ReqPending? { return Failure(RequestNotPending); }
      return Success(requests[id]);
    }

    method AssertIsApprover(r: Request, user: User) returns (o: Outcome<RequestError>)
      ensures o == IsApprover(s, View(), r, user)
    {
      if user.id == r.requester { return Fail(RequestSelfApproval); }
      if user.access.SuperAdmin? || user.access.GeneralAdmin? { return Pass; }
      if user.access.OrgAdmin? {
        if OrgsOf(s, user.id) * OrgsOf(s, r.requester) != {} { return Pass; }
      }
      if r.document.Some? && r.document.value in docs {
        var steps := docs[r.document.value].steps;
        for j := 0 to |steps|
          invariant forall h :: 0 <= h < j ==> !(steps[h].isPending && steps[h].assignee == user.id)
        {
          if steps[j].isPending && steps[j].assignee == user.id { return Pass; }
        }
      }
      return Fail(NotAnApprover);
    }

    /** Apply an approved request to the ledger; a fault leaves the ledger as it was. */
    method ApplyEffect(requester: Id, p: Payload) returns (o: Outcome<RequestError>)
      requires store.cat == s.cat && store.cal == s.cal
      modifies store
      ensures match ApplyApproved(s, old(store.View()), faults, requester, p)
              case Success(after) => o.Pass? && store.View() == after
              case Failure(e) => o == Fail(e) && store.View() == old(store.View())
    {
      var settled: Outcome<L.LeaveError> := Pass;
      match p {
        case LeaveCreate(t, period) => settled := store.CreateApproved(requester, t, period);
        case LeaveModify(id, change) => settled := store.ModifyApproved(requester, id, change);
        case LeaveDelete(id) => settled := store.DeleteApproved(requester, id);
        case Other(_, content) => if content in faults { return Fail(EffectFault(faults[content])); }
      }
      o := if settled.Fail? then Fail(LeaveFault(settled.error)) else Pass;
    }

    /** Set the request approved, apply it, approve its document; on a fault roll back to `saved`. */
    method ConcludeRequest(id: Id, r: Request, saved: map<Id, Request>) returns (o: Outcome<RequestError>)
      requires store.cat == s.cat && store.cal == s.cal
      modifies this, store
      ensures match Conclude(s, old(View()), id, r)
              case Success(after) => o.Pass? && View() == after
              case Failure(e) => o == Fail(e) && View() == old(View()).(requests := saved)
    {
      requests := requests[id := r.(status := ReqApproved)];
      var effect := ApplyEffect(r.requester, r.payload);
      if effect.Fail? {
        requests := saved;
        return Fail(effect.error);
      }
      docs := SetDocStatus(docs, r.document, ReqApproved);
      applied := applied + [id];
      o := Pass;
    }

    method CloseRequest(id: Id, r: Request, status: RequestStatus)
      modifies this
      ensures View() == Close(old(View()), id, r, status)
    {
      requests := requests[id := r.(status := status)];
      if r.document.Some? && r.document.value in docs {
        docs := docs[r.document.value := docs[r.document.value].(status := status)];
      }
    }

    /** Activate the waiting steps of a round. */
    method ActivateRound(document: Option<Id>, round: int)
      modifies this`docs
      ensures docs == OpenRoundOf(old(docs), document, round)
    {
      if document.Some? && document.value in docs {
        var steps := docs[document.value].steps;
        ghost var was := steps;
        for j := 0 to |steps|
          invariant |steps| == |was|
          invariant forall h :: 0 <= h < j ==>
            steps[h] == if was[h].round == round then was[h].(isPending := true) else was[h]
          invariant forall h :: j <= h < |was| ==> steps[h] == was[h]
        {
          if steps[j].round == round && !steps[j].isPending {
            steps := steps[j := steps[j].(isPending := true)];
          }
        }
        assert steps == OpenRound(was, round);
        docs := docs[document.value := docs[document.value].(steps := steps)];
      }
    }

    method ApproveRequest(id: Id, user: User) returns (o: Outcome<RequestError>)
      requires Valid()
      modifies this, store
      ensures Answers(old(View()), Approve(s, old(View()), id, user), o)
    {
      var loaded := LoadPendingRequest(id);
      if loaded.Failure? { return Fail(loaded.error); }
      var r := loaded.value;
      var allowed := AssertIsApprover(r, user);
      if allowed.Fail? { return allowed; }
      var round := GetCurrentRound(RuleFor(s, r.payload), r.approvals);
      if HasApproved(r.approvals, round, user.id) { return Fail(RequestAlreadyApproved); }
      o := RecordApproval(id, r.(approvals := r.approvals + [Approval(round, user.id, GaveApproval)]), round);
    }

    /** The transaction of an approval, already entered in `r`. */
    method RecordApproval(id: Id, r: Request, round: nat) returns (o: Outcome<RequestError>)
      requires store.cat == s.cat && store.cal == s.cal
      modifies this, store
      ensures Answers(old(View()), Advance(s, old(View()), id, r, round), o)
    {
      var rule, saved := RuleFor(s, r.payload), requests;
      var complete := CountIn(r.approvals, round) >= RoundRequired(rule, round);
      if complete && round >= MaxRounds(rule) {
        o := ConcludeRequest(id, r, saved);
        return;
      }
      requests := requests[id := r];
      if complete {
        ActivateRound(r.document, round + 1);
      }
      o := Pass;
    }

    method RejectRequest(id: Id, user: User) returns (o: Outcome<RequestError>)
      modifies this
      ensures Answers(old(View()), Reject(s, old(View()), id, user), o)
    {
      var loaded := LoadPendingRequest(id);
      if loaded.Failure? { return Fail(loaded.error); }
      var r := loaded.value;
      var allowed := AssertIsApprover(r, user);
      if allowed.Fail? { return allowed; }
      var round := GetCurrentRound(RuleFor(s, r.payload), r.approvals);
      CloseRequest(id, r.(approvals := r.approvals + [Approval(round, user.id, GaveRejection)]), ReqRejected);
      o := Pass;
    }

    method ForceApproveRequest(id: Id, user: User) returns (o: Outcome<RequestError>)
      requires Valid()
      modifies this, store
      ensures Answers(old(View()), ForceApprove(s, old(View()), id, user), o)
    {
      if !user.access.SuperAdmin? { return Fail(SuperAdminOnly); }
      var loaded := LoadPendingRequest(id);
      if loaded.Failure? { return Fail(loaded.error); }
      var r := loaded.value;
      o := ConcludeRequest(id, r.(approvals := r.approvals + [Approval(0, user.id, ForcedApproval)]), requests);
    }

    method ForceRejectRequest(id: Id, user: User) returns (o: Outcome<RequestError>)
      modifies this
      ensures Answers(old(View()), ForceReject(s, old(View()), id, user), o)
    {
      if !user.access.SuperAdmin? { return Fail(SuperAdminOnly); }
      var loaded := LoadPendingRequest(id);
      if loaded.Failure? { return Fail(loaded.error); }
      var r := loaded.value;
      CloseRequest(id, r.(approvals := r.approvals + [Approval(0, user.id, ForcedRejection)]), ReqRejected);
      o := Pass;
    }

    method BulkApproveRequests(ids: seq<Id>, user: User) returns (results: seq<bool>)
      requires Valid()
      modifies this, store
      ensures (View(), results) == BulkApprove(s, old(View()), ids, user)
    {
      results := [];
      for i := 0 to |ids|
        invariant Valid()
        invariant (View(), results) == BulkApprove(s, old(View()), ids[..i], user)
      {
        ghost var before := View();
        var o := ApproveRequest(ids[i], user);
        results := results + [o.Pass?];
        if o.Pass? {
          ApproveKeepsInv(s, before, ids[i], user);
        }
        assert ids[..i + 1][..i] == ids[..i];
      }
      assert ids[..|ids|] == ids;
    }

    method CancelRequest(id: Id, user: User) returns (o: Outcome<RequestError>)
      modifies this
      ensures Answers(old(View()), Cancel(old(View()), id, user), o)
    {
      if id !in requests { return Fail(RequestNotFound); }
      var r := requests[id];
      if r.requester != user.id { return Fail(RequestNotOwn); }
      if !r.status.ReqPending? { return Fail(RequestNotPending); }
      CloseRequest(id, r, ReqCancelled);
      o := Pass;
    }

    method EditRequest(id: Id, p: Payload, user: User) returns (o: Outcome<RequestError>)
      requires Valid()
      modifies this
      ensures Answers(old(View()), Edit(s, old(View()), id, p, user), o)
    {
      if id !in requests { return Fail(RequestNotFound); }
      var r := requests[id];
      if r.requester != user.id { return Fail(RequestNotOwn); }
      if !r.status.ReqPending? { return Fail(RequestNotPending); }
      if KindOf(p) != KindOf(r.payload) { return Fail(RequestKindFixed); }
      var checked := PrevalidatePayload(r.requester, p);
      if checked.Fail? { return Fail(LeaveFault(checked.error)); }
      requests := requests[id := r.(payload := p)];
      docs := SetDocContent(docs, r.document, p);
      o := Pass;
    }

    method PrevalidatePayload(requester: Id, p: Payload) returns (o: Outcome<L.LeaveError>)
      requires store.cal == s.cal
      ensures o == Prevalidate(s, store.View(), requester, p)
    {
      if !p.LeaveCreate? { return Pass; }
      var found := L.FindType(s.cat, p.typeId);
      if found.None? { return Fail(L.LeaveTypeNotFound); }
      if !found.value.isActive { return Fail(L.LeaveTypeInactive); }
      if found.value.timeOption.Hourly? && p.period.startDate != p.period.endDate {
        return Fail(L.LeaveTimeSameDayOnly);
      }
      var days := store.ComputeLeaveDaysUsed(found.value, p.period);
      if days.Failure? { return Fail(days.error); }
      o := store.CheckBalance(L.Key(requester, L.ResolveBalanceType(s.cat, p.typeId), p.period.startDate.year),
                              days.value, p.period.startDate);
    }

    method BuildSteps(rounds: seq<int>, dir: Directory, requester: Id)
      returns (r: Result<seq<RoundStep>, RequestError>)
      ensures r == BuildLine(rounds, dir, requester)
    {
      var steps := [];
      for n := 0 to |rounds|
        invariant BuildLine(rounds[..n], dir, requester) == Success(steps)
      {
        assert rounds[..n + 1][..n] == rounds[..n];
        var holder := if n < |dir.byDetail| then dir.byDetail[n] else None;
        var assignee := Assignee(holder, dir, requester);
        if assignee.None? {
          BuildFailsOn(rounds, n + 1, dir, requester);
          return Failure(NoApprover);
        }
        steps := steps + [RoundStep(rounds[n], assignee.value, rounds[n] == 1)];
      }
      assert rounds[..|rounds|] == rounds;
      return Success(steps);
    }

    method AttachDocument(id: Id, p: Payload, steps: seq<RoundStep>)
      requires id in requests
      modifies this`docs, this`requests, this`nextDoc
      ensures docs == old(docs)[old(nextDoc) := HrDoc(ReqPending, p, steps)]
      ensures requests == old(requests)[id := old(requests)[id].(document := Some(old(nextDoc)))]
      ensures nextDoc == old(nextDoc) + 1
    {
      docs := docs[nextDoc := HrDoc(ReqPending, p, steps)];
      requests := requests[id := requests[id].(document := Some(nextDoc))];
      nextDoc := nextDoc + 1;
    }

    /** A request without a form, automatic approval included, or with a document and its line. */
    method CreateRequest(requester: Id, p: Payload, hasForm: bool, dir: Directory) returns (o: Outcome<RequestError>)
      requires Valid()
      modifies this, store
      ensures Answers(old(View()), Create(s, old(View()), requester, p, hasForm, dir), o)
    {
      var checked := PrevalidatePayload(requester, p);
      if checked.Fail? { return Fail(LeaveFault(checked.error)); }
      var saved, id, rule := requests, nextRequest, RuleFor(s, p);
      requests := requests[id := Request(requester, p, ReqPending, None, [])];
      nextRequest := id + 1;
      if rule.Some? && rule.value.isAutoApprove {
        o := ConcludeRequest(id, requests[id], saved);
        if o.Fail? {
          nextRequest := id;
        }
        return;
      }
      if hasForm {
        var steps := BuildSteps(DetailRounds(rule), dir, requester);
        if steps.Failure? {
          requests, nextRequest := saved, id;
          return Fail(steps.error);
        }
        AttachDocument(id, p, steps.value);
      }
      o := Pass;
    }

    /** Any call of the service, or of the modules that share the ledger. */
    method Handle(op: Operation) returns (o: Outcome<RequestError>)
      requires Valid()
      modifies this, store
      ensures Answers(old(View()), Perform(s, old(View()), op), o)
      ensures Valid()
    {
      ghost var was := View();
      match op {
        case OpCreate(e, p, f, dir) => o := CreateRequest(e, p, f, dir);
        case OpApprove(id, u) => o := ApproveRequest(id, u);
        case OpReject(id, u) => o := RejectRequest(id, u);
        case OpForceApprove(id, u) => o := ForceApproveRequest(id, u);
        case OpForceReject(id, u) => o := ForceRejectRequest(id, u);
        case OpCancel(id, u) => o := CancelRequest(id, u);
        case OpEdit(id, p, u) => o := EditRequest(id, p, u);
        case OpBulkApprove(ids, u) => var _ := BulkApproveRequests(ids, u); o := Pass;
        case OpLedger(lop) => var _ := store.Handle(lop); o := Pass;
        case OpOutside(content, fault) =>
          faults := if fault.Some? then faults[content := fault.value] else faults - {content};
          o := Pass;
      }
      if o.Pass? {
        PerformKeepsInv(s, was, op);
      }
    }
  }

  /** A prefix of the rounds without an approver fails the whole line. */
  lemma {:induction false} BuildFailsOn(rounds: seq<int>, n: nat, dir: Directory, requester: Id)
    requires n <= |rounds| && BuildLine(rounds[..n], dir, requester) == Failure(NoApprover)
    ensures BuildLine(rounds, dir, requester) == Failure(NoApprover)
    decreases |rounds|
  {
    if n < |rounds| {
      assert rounds[..|rounds| - 1][..n] == rounds[..n];
      BuildFailsOn(rounds[..|rounds| - 1], n, dir, requester);
    } else {
      assert rounds[..n] == rounds;
    }
  }
}
