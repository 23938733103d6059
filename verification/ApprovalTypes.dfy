/** Rows and constant tables of the electronic-approval documents. */
module ApprovalTypes {
  import opened Wrappers

  type Id = nat

  datatype DocStatus =
    | DocDraft | DocPending | DocApproved | DocRejected | DocRecalled | DocCancelled

  datatype Role =
    | Approver | Agreement | DeptCollaborator
    | Reference | Viewer
    | Receiver | DeptReceiver

  datatype StepStatus =
    | Waiting | Pending | Approved | ProxyApproved | PreApproved | Rejected
    | Returned | Cancelled | Skipped | Viewed | Received | Bounced

  datatype HistoryAction =
    | DidSubmit | DidRecall | DidApprove | DidProxyApprove | DidAgree | DidDeptCollab
    | DidReject | DidPreApprove | DidReturnPrev | DidCancelApproval
    | DidView | DidReceive | DidBounce | DidOpinion

  datatype ApprovalError =
    | DocumentManagedByRequest | DocumentNotPending | DocumentNotDrafter
    | DocumentAlreadySubmitted | DocumentCannotRecall | DocumentCannotCancel
    | DocumentNotApproved | DocumentPreApprovalNotAllowed
    | DocumentCcNotAllowed | DocumentCcForbidden | DocumentNoApprovalLine | DocumentCcDuplicate
    | DocumentOpinionNotAllowed | DocumentAccessForbidden
    | ApprovalLineEmpty | ApprovalSelfNotAllowed
    | StepNotFound | StepRoleMismatch | StepNotCurrent | StepNotAssignee | StepNoPrevious
    | ProxyExpired | PrevRejectDisabled

  /** A row of approval_steps; its id is its position in the table of the document. */
  datatype Step = Step(role: Role, assignee: Id, org: Option<Id>, order: nat,
                       status: StepStatus, isProxy: bool, proxyId: Option<Id>)

  /** A row of approval_history. */
  datatype Entry = Entry(step: Option<nat>, actor: Id, action: HistoryAction)

  datatype Doc = Doc(status: DocStatus, managed: bool, drafter: Id, allowPreApproval: bool,
                     steps: seq<Step>, history: seq<Entry>)

  /** A step of a line whose assignee is already resolved. */
  datatype StepInput = StepInput(role: Role, assignee: Id, org: Option<Id>, order: nat)

  /** The roles a late carbon copy may have. */
  datatype CcInput = CcReference(assignee: Id) | CcViewer(assignee: Id) {
    function Role(): Role {
      if CcReference? then Reference else Viewer
    }
  }

  /** Proxy settings, newest first; dates are day numbers. */
  datatype ProxySetting =
    ProxySetting(principal: Id, proxy: Id, isActive: bool, startDate: int, endDate: int)

  /** What an action reads besides the document: (department, document manager) pairs, the proxy
      settings, the date, and the company's switch for returning to the previous step. */
  datatype Env = Env(docManagers: set<(Id, Id)>, proxies: seq<ProxySetting>, today: int,
                     prevRejectEnabled: bool)

  predicate IsFlow(r: Role) {
    r.Approver? || r.Agreement? || r.DeptCollaborator?
  }

  predicate IsReceiver(r: Role) {
    r.Receiver? || r.DeptReceiver?
  }

  predicate IsDept(r: Role) {
    r.DeptCollaborator? || r.DeptReceiver?
  }

  /** The statuses of a step that counts as approved. */
  predicate IsActed(s: StepStatus) {
    s.Approved? || s.ProxyApproved? || s.PreApproved?
  }

  function Actions(history: seq<Entry>): seq<HistoryAction> {
    seq(|history|, i requires 0 <= i < |history| => history[i].action)
  }
}
