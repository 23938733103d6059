# Ablework service laws

A Dafny model of the stateful core of a company back office: electronic-approval documents, HR requests that
move days in a leave ledger, the department hierarchy, document numbering, cached settings, schedule patterns,
and the small codecs and protocols of its clients. Each service call is one atomic step. Where the service
changes rows in place the model has a class whose methods are proved to do exactly what a transition function
says; the laws are proved about the transitions and about every run of them.

`dafny verify dfyconfig.toml` checks everything.

| Modules | What they model |
|---|---|
| `ApprovalTypes`, `StepTable`, `ApprovalTransitions`, `ApprovalDocument` | rows, actions and service methods of a document |
| `ApprovalCursor`, `ApprovalRefinement`, `ApprovalLaws` | a counter machine over the history, the proof that it determines the rows, and the laws |
| `ApprovalTies` | lines in which steps share a stepOrder |
| `ApprovalRights` | who may make each call, what it leaves, and the history as the log of the calls |
| `RequestRounds`, `RequestDesk`, `RequestService`, `RequestLaws`, `RequestDecisions` | M-of-N approval of requests and the effects they fire |
| `LeaveLedger`, `LeaveAccrual`, `LeaveRepresentative`, `LeaveStore`, `LeaveLedgerLaws` | balances, leaves, accrual and expiry |
| `BusinessDays`, `LeaveDays` | the days a leave counts and is charged |
| `LeaveTargets` | which item of a rule applies, and for how many months |
| `Organizations`, `OrganizationTree`, `OrganizationPlaces`, `DeptApprover` | the parent graph, its bounded cycle check, the tree builder, and the climb to a department's approver |
| `DocNumberFormat`, `DocNumberMeaning`, `DocNumberRegister`, `DocNumberDesk` | number patterns, the counter, force deletion |
| `SettingsTable`, `SettingsLens`, `SettingsCache` | settings as a flat record over rows, behind a cache |
| `SchedulePattern` | expansion of repeating patterns into shifts |
| `RefreshQueue` | the single-flight token refresh |
| `JwtDecoder`, `Csv`, `CsvFile` | the base64url and UTF-8 decoder, CSV rows and files |

## What the proofs found

- A step approved by a department's document manager (neither assignee nor proxy) cannot be cancelled by that
  manager: `ApprovalLaws.ApproverCancelsIff`, `ApprovalLaws.ManagerCannotCancel`.
- Two flow steps may share a stepOrder, and any such pair breaks the line, not only one at its front: some calls
  after submission make two steps current, and some end with the document approved while a flow step is still
  pending. Without such a pair no calls do either. The tie at the front shows at submission, a later one through
  the cancellation of an approval: `ApprovalTies.OneCurrentIffTieFree`, `ApprovalTies.ApprovedOverPendingStep`,
  `ApprovalTies.OnePendingIffNoTie`.
- A proxy with a setting for today is refused when a newer setting of the same two people does not cover today:
  `ApprovalLaws.ProxyActsIff`, `ApprovalLaws.ValidProxyRefused`.
- A leave moved into the next year leaves its days on the old year's row:
  `LeaveLedgerLaws.ModifyKeepsSumIff`, `LeaveLedgerLaws.MoveAcrossNewYear`.
- A leave entered by an administrator on a type that is not its group's representative is charged to a row of
  that type, which only a manual grant can have filled, while requests for the same leave debit the
  representative's row: `LeaveLedgerLaws.AdminLeaveKeepsSumIff`, `LeaveLedgerLaws.AdminLeaveOnHalfDays`.
- Which type a group's leaves debit and its rule credits is searched twice, without an order. With two full-day
  types in a group they can differ: `LeaveRepresentative.OrderIsIrrelevantIff`,
  `LeaveRepresentative.TwoRepresentatives`.
- The cycle check is exact up to a hundred organizations and misses a cycle with a hundred and one:
  `Organizations.CheckIsExact`, `Organizations.HundredAndOneIsTooMany`. The tree builder ends all the same, but
  the organizations of the cycle are in no tree: `OrganizationTree.WholeTree`, `OrganizationTree.CompanyLost`.
- A number is refused by a surviving document of an earlier year that has the next sequence number. With a yearly
  reset and a pattern without the year, the first document of a year blocks all later years while it survives,
  and the retry alone changes nothing: `DocNumberRegister.RefusedByEarlierYearIff`,
  `DocNumberRegister.ResetCollides`, `DocNumberRegister.StaysBlocked`, `DocNumberDesk.NumberDesk.SubmitWithRetry`.
- Forms without a rule refuse submissions after any number but the last is deleted, and go on refusing them, since
  a refused one leaves the count as it was: `DocNumberRegister.FallbackAfterDelete`,
  `DocNumberRegister.FallbackStaysBlocked`.
- A shift moved off a holiday can land on a company holiday after the last requested day, because only the
  holidays between the two dates are loaded: `SchedulePattern.LandsOnHolidayIff`, `SchedulePattern.LandsOnHoliday`.
- Shifting off a holiday onto a day that is worked too books the employee twice; with one template on both days
  the two shifts are the same, and the table of shifts has no unique index that would drop one of them:
  `SchedulePattern.BookedTwiceIff`, `SchedulePattern.BookedTwice`.
- A CSV file with a line feed or outer blanks in a field, or with a row of one empty field, is not read back by
  the upload: `CsvFile.FileRoundTripIff`.

## Model

| member | source | states |
|---|---|---|
| StepTable.FlowLineSorted | apps/api/src/modules/documents/document-steps.service.ts:48-51 | the flow rows listed in stepOrder are sorted and name no row twice |
| StepTable.FlowLineStrict | apps/api/src/modules/documents/documents.helpers.ts:80-82 | with distinct flow orders the position in the line and the stepOrder compare alike, so filter-and-sort picks by position |
| ApprovalCursor.ActedIsTally | apps/api/src/modules/documents/approval-actions.service.ts:103-129 | in every legal history the approvals in force are those logged less the returns and cancellations |
| ApprovalCursor.ReturnThenApprove | apps/api/src/modules/documents/approval-actions.service.ts:293-375 | returning to the previous step and approving again changes the machine only in who approved |
| ApprovalCursor.ApproveThenCancel | apps/api/src/modules/documents/approval-actions.service.ts:379-462 | a non-final approval can be cancelled iff at most one step had been sent back, and then only that mark is lost |
| ApprovalCursor.ApprovalsToFinish | apps/api/src/modules/documents/approval-actions.service.ts:611-657 | with k of n acted, exactly n - k more approvals finish the line, and no fewer |
| ApprovalRefinement.ApproveMoves | apps/api/src/modules/documents/approval-actions.service.ts:80-143 | approving, agreeing or collaborating on a row is reading one approval on the machine: the rows after it are the machine's |
| ApprovalRefinement.RejectMoves | apps/api/src/modules/documents/approval-actions.service.ts:147-219 | rejection leaves the line approved*, rejected, sent back*, cancelled* as the machine says |
| ApprovalRefinement.PreApproveMoves | apps/api/src/modules/documents/approval-actions.service.ts:223-289 | pre-approval skips the remaining flow rows and ends the document approved |
| ApprovalRefinement.ReturnMoves | apps/api/src/modules/documents/approval-actions.service.ts:293-375 | returning sends the current row back and reopens the last approved one |
| ApprovalRefinement.CancelMoves | apps/api/src/modules/documents/approval-actions.service.ts:379-462 | cancelling reopens the last approved row and puts the current one back to waiting |
| ApprovalRefinement.RecallMoves | apps/api/src/modules/documents/documents.service.ts:350-405 | recall is enabled only while nothing is approved and touches no row |
| ApprovalRefinement.SubmitStartsFlow | apps/api/src/modules/documents/document-steps.service.ts:46-82 | submission of a line with distinct flow orders gives the machine's start: first row pending, the others waiting |
| ApprovalRefinement.AddCcKeepsFlow | apps/api/src/modules/documents/documents.service.ts:414-488 | late carbon copies leave the flow line and its order alone |
| ApprovalRefinement.PerformKeepsSides | apps/api/src/modules/documents/approval-actions.service.ts:643-657 | every call keeps receivers waiting until the end and copies pending or viewed |
| ApprovalRefinement.PerformKeepsInv | apps/api/src/modules/documents/approval-actions.service.ts:80-462 | every successful call keeps the invariant: rows, status and history agree with the machine |
| ApprovalLaws.RunKeepsInv | apps/api/src/modules/documents/approval-actions.service.ts:80-657 | after any calls on a new draft, in any order and environment, the invariant holds |
| ApprovalLaws.HistoryIsComplete | apps/api/src/modules/documents/approval-actions.service.ts:103-129 | replaying the history rebuilds every flow status, the document status and the number of acted steps |
| ApprovalLaws.HistoryOnlyGrows | apps/api/src/modules/documents/approval-actions.service.ts:118-126 | what is logged at any moment of a run stays, as a prefix, and each later successful call but saves and added copies has one entry of its own |
| ApprovalLaws.PendingLine | apps/api/src/modules/documents/approval-actions.service.ts:80-462 | a pending document reads approved*, one pending, returned*, waiting*, the pending index being the approvals in force |
| ApprovalLaws.ApprovedLine | apps/api/src/modules/documents/approval-actions.service.ts:223-289 | an approved document reads approved*, or approved*, pre-approved, skipped* |
| ApprovalLaws.RejectedLine | apps/api/src/modules/documents/approval-actions.service.ts:147-219 | a rejected document reads approved*, rejected, returned*, cancelled* |
| ApprovalLaws.RecalledLine | apps/api/src/modules/documents/documents.service.ts:371-386 | a recalled document reads pending, returned*, waiting* |
| ApprovalLaws.StatusOnlyAdvances | apps/api/src/modules/documents/documents.constants.ts:9-16 | draft, then pending, then one end that no call leaves |
| ApprovalLaws.ReceiversMoveAtTheEnd | apps/api/src/modules/documents/approval-actions.service.ts:643-657 | a receiver row leaves WAITING exactly in the call that approves or rejects the document |
| ApprovalLaws.CurrentApproverIsNext | apps/api/src/modules/documents/documents.helpers.ts:72-84 | the approver shown is the assignee of the one pending flow step |
| ApprovalLaws.RecallEnabledIff | apps/api/src/modules/documents/documents.service.ts:364-379 | the drafter can recall iff the first flow step is current, which is iff the phase shown is "submitted" |
| ApprovalLaws.ReturnEnabledIff | apps/api/src/modules/documents/approval-actions.service.ts:300-335 | the assignee of the current step can return it iff it is not the first |
| ApprovalLaws.CancelEnabledIff | apps/api/src/modules/documents/approval-actions.service.ts:386-426 | the assignee of an approved step can cancel it iff it is the last approved one and nothing is sent back |
| ApprovalLaws.ApproverOwnsUnlessManager | apps/api/src/modules/documents/approval-support.service.ts:87-123 | the row an approval leaves counts as the approver's own iff they did not act as the department's document manager |
| ApprovalLaws.ReturnThenApproveRestores | apps/api/src/modules/documents/approval-actions.service.ts:293-375 | return followed by approval of the previous step restores every flow status up to who approved it |
| ApprovalLaws.ApproveThenCancelRestores | apps/api/src/modules/documents/approval-actions.service.ts:379-462 | approve followed by cancel is enabled iff nothing beyond the activated step is sent back, and restores all but that step, which waits |
| ApprovalLaws.ApproverCancelsIff | apps/api/src/modules/documents/approval-actions.service.ts:379-462 | whoever gave a non-final approval can take it back iff they did not act as the department's document manager and nothing beyond the step they activated is sent back |
| ApprovalLaws.ManagerCannotCancel | apps/api/src/modules/documents/approval-actions.service.ts:400-408 | a submitted document and a manager who approves and is then refused, while the assignee is not |
| ApprovalLaws.ApprovalsAlong | apps/api/src/modules/documents/approval-actions.service.ts:80-143 | over any sequence of approval calls, failures between them included, the rows keep following the machine |
| ApprovalLaws.ApprovedAtTheLastStep | apps/api/src/modules/documents/approval-actions.service.ts:611-657 | by approvals alone a document is approved exactly at the (n - k)-th success |
| ApprovalLaws.CurrentApprovalEnabled | apps/api/src/modules/documents/approval-actions.service.ts:39-78 | a pending document never gets stuck: its current step's assignee can approve |
| ApprovalLaws.ProxyActsIff | apps/api/src/modules/documents/approval-support.service.ts:87-123 | who is neither assignee nor document manager may act iff the newest active setting of the two covers today, and is refused as expired iff it does not |
| ApprovalLaws.ValidProxyRefused | apps/api/src/modules/documents/approval-support.service.ts:103-122 | a setting that covers the day stops working when a shorter one is added |
| ApprovalRights.StepCallIff | apps/api/src/modules/documents/approval-actions.service.ts:80-593 | a call on a step (the approvals, reject, pre-approve, return, view, receive, bounce) succeeds iff the step waits for it and the actor is its assignee, a document manager of its department, or a proxy whose newest active setting covers today |
| ApprovalRights.StepCallLeaves | apps/api/src/modules/documents/approval-actions.service.ts:80-593 | it leaves its status on its step, the actor's mark iff they acted as a proxy, and one history entry with this step, actor and action |
| ApprovalRights.ErrorExplains | apps/api/src/modules/documents/approval-support.service.ts:50-152 | the error of a refused call is true of the document, the step, the call and the actor |
| ApprovalRights.CancelCall | apps/api/src/modules/documents/approval-actions.service.ts:379-462 | an approval is taken back iff by its assignee or the proxy who gave it while every later flow step waits or is pending; its mark goes and at most a later pending step changes |
| ApprovalRights.UpdateCall | apps/api/src/modules/documents/documents.service.ts:111-140 | only the drafter saves a draft, and a given line is stored as it is, waiting |
| ApprovalRights.SubmitCall | apps/api/src/modules/documents/documents.service.ts:261-346 | submission succeeds iff by the drafter of a draft with a flow step and no approver step of their own; the line is stored, copies pending, receivers and all but the first flow steps waiting |
| ApprovalRights.RecallCall | apps/api/src/modules/documents/documents.service.ts:350-408 | recall succeeds iff by the drafter while no step is approved, and touches no row |
| ApprovalRights.AddCcCall | apps/api/src/modules/documents/documents.service.ts:414-493 | copies are added iff one is missing; then all asked for are there, the new ones pending and last, nothing else changed |
| ApprovalRights.OpinionCall | apps/api/src/modules/documents/documents.service.ts:497-529 | an opinion is taken iff the document is submitted and its author can read it, and only logged |
| ApprovalRights.HistoryIsLog | apps/api/src/modules/documents/approval-actions.service.ts:118-126 | over every run the history is the log of the successful calls, each with its step, actor and action, in order |
| ApprovalRights.EveryEntryByRight | apps/api/src/modules/documents/approval-support.service.ts:87-123 | over every run what somebody did on a step they did in a call they had the right to make on it at that moment |
| ApprovalRights.NoSelfApproval | apps/api/src/modules/documents/documents.service.ts:300-312 | over every run no approver step of a submitted document is the drafter's |
| ApprovalTies.OneCurrentIffTieFree | apps/api/src/modules/documents/approval-actions.service.ts:410-426 | over every run from a submitted line at most one flow step is pending, and an approved document has none pending, iff no two flow steps of the line share a stepOrder |
| ApprovalTies.ReachTie | apps/api/src/modules/documents/approval-actions.service.ts:410-426 | from a line with a tie at or after the current step some calls lead to two current steps |
| ApprovalTies.LeaveBehind | apps/api/src/modules/documents/approval-actions.service.ts:606-652 | of two current steps one stays pending while approvals of the others approve the document |
| ApprovalTies.ApprovedOverPendingStep | apps/api/src/modules/documents/approval-actions.service.ts:379-462 | stepOrders 0, 1, 1: four calls after submission the document is approved with its second step pending |
| ApprovalTies.OnePendingIffNoTie | apps/api/src/modules/documents/documents.helpers.ts:87-98 | at the moment of submission at most one flow step is pending iff no flow step ties with the least stepOrder |
| ApprovalTies.TiedFirstSteps | apps/api/src/modules/documents/documents.helpers.ts:87-98 | a concrete line with a tie at its front has two pending steps |
| ApprovalDocument.FindEarliest | apps/api/src/modules/documents/approval-actions.service.ts:611-639 | the loop returns the candidate of least stepOrder, the first stored among equals |
| ApprovalDocument.FindLatest | apps/api/src/modules/documents/approval-actions.service.ts:320-328 | the loop returns the candidate of greatest stepOrder |
| ApprovalDocument.Document.UpdateRows | apps/api/src/modules/documents/approval-actions.service.ts:643-651 | the loop changes the status of exactly the rows that match |
| ApprovalDocument.Document.CreateLine | apps/api/src/modules/documents/document-steps.service.ts:46-62 | the stored rows get their initial statuses from the least flow order |
| ApprovalDocument.Document.Handle | apps/api/src/modules/documents/approval-actions.service.ts:39-657 | any call answers as its transition and keeps the document valid |
| RequestRounds.GetCurrentRound | apps/api/src/modules/requests/request-approval.service.ts:366-376 | the scan stops at the first round short of its required count, or at the last round |
| RequestRounds.CurrentRoundIs | apps/api/src/modules/requests/request-approval.service.ts:366-398 | when rounds fill in order, that round is the one being filled |
| RequestRounds.RoundsNeverExceed | apps/api/src/modules/requests/requests.helpers.ts:32-42 | no round holds more approvals than it asks for, full ones hold exactly as many, later ones none |
| RequestRounds.RequiredIsGreatest | apps/api/src/modules/requests/requests.helpers.ts:31-36 | a round asks for n iff n is 1 or the count of one of its details, and none of them asks for more |
| RequestRounds.MaxRoundsIsGreatest | apps/api/src/modules/requests/requests.helpers.ts:38-43 | there are m rounds iff m is 1, what the rule says or the round of a detail, and none of these is greater |
| RequestRounds.OneRoundAsksFor | apps/api/src/modules/requests/requests.helpers.ts:31-43 | with all details in one round as many approvals in all as the most demanding asks for |
| RequestRounds.ApprovalsSoFar | apps/api/src/modules/requests/request-approval.service.ts:366-398 | how many approvals there are says which round it is |
| RequestRounds.NextApprovalFills | apps/api/src/modules/requests/request-approval.service.ts:51-79 | one more approval by a new approver keeps rounds filling in order |
| RequestRounds.LastApprovalIffSum | apps/api/src/modules/requests/request-approval.service.ts:73-79 | all rounds are full iff the approvals are as many as the required counts add up to |
| RequestLaws.ApproveKeepsInv | apps/api/src/modules/requests/request-approval.service.ts:35-124 | approval keeps rounds, documents and the log of applied requests in order |
| RequestLaws.ApprovalEndsAtTheSum | apps/api/src/modules/requests/request-approval.service.ts:72-124 | the request is approved exactly at the approval that completes the sum of required counts |
| RequestLaws.PendingRounds | apps/api/src/modules/requests/request-approval.service.ts:366-398 | rounds fill in order without excess, nobody approves a round twice, and a step is pending iff its round is reached |
| RequestLaws.BulkKeepsInv | apps/api/src/modules/requests/request-approval.service.ts:289-303 | bulk approval keeps the same, the failing ones changing nothing |
| RequestLaws.CreateKeepsInv | apps/api/src/modules/requests/requests.service.ts:279-545 | creation, automatic approval included, keeps the same |
| RequestLaws.RunKeepsInv | apps/api/src/modules/requests/request-approval.service.ts:35-303 | over every run effects are applied once to approved requests and never to others, and documents match their requests |
| RequestLaws.DecisionsAreFinal | apps/api/src/modules/requests/requests.helpers.ts:45-52 | a decided request never changes again and its effect is not applied again |
| RequestLaws.RequestsInTrace | apps/api/src/modules/requests/request-approval.service.ts:79-106 | over every run the ledger operations that requests cause are those of the applied requests, each once and in the order they were applied |
| RequestLaws.LedgerFollowsTrace | apps/api/src/modules/requests/request-approval.service.ts:79-106 | the ledger after any run is that of these operations and the other modules' ones, each once and in order |
| RequestLaws.LedgerUnderRequests | apps/api/src/modules/requests/request-effects.service.ts:298-485 | so conservation, and used = sum of leaves, hold under requests, grants, accrual and expiry together |
| RequestDecisions.ApproverIff | apps/api/src/modules/requests/request-approval.service.ts:311-364 | who may decide: company administrators, those sharing a department with the requester, and whoever's step is pending; never the requester |
| RequestDecisions.ApproveIff | apps/api/src/modules/requests/request-approval.service.ts:35-124 | an approval is accepted iff from someone who may decide and has not approved this round, and if it is the last only when its effect goes through; it is recorded for the current round |
| RequestDecisions.OneRoundConcludes | apps/api/src/modules/requests/request-approval.service.ts:60-106 | with all approvals in one round the request is approved and applied exactly at the n-th, n the greatest count asked for: at the first where each asks for one |
| RequestDecisions.RejectIff | apps/api/src/modules/requests/request-approval.service.ts:128-176 | a rejection is accepted iff from someone who may decide; it ends the request and applies nothing |
| RequestDecisions.ForceIff | apps/api/src/modules/requests/request-approval.service.ts:180-285 | only super administrators force a decision; a forced approval applies the effect whatever the rounds |
| RequestDecisions.CancelIff | apps/api/src/modules/requests/requests.service.ts:205-232 | only the requester takes a pending request back |
| RequestDecisions.EditIff | apps/api/src/modules/requests/requests.service.ts:236-275 | only the requester edits a pending request, within its kind and if it could be handed in like that; only its payload and the document's body change |
| RequestDecisions.LineIsFor | apps/api/src/modules/requests/requests.service.ts:480-520 | each step of the line is for the holder of its position, else the department's administrator unless that is the requester, else another; no line iff some step is for nobody |
| RequestDecisions.CreateIff | apps/api/src/modules/requests/requests.service.ts:279-400 | a request is accepted iff it passes its check, its effect goes through where it is approved at once, and its line has an approver for every step; it is stored as asked for |
| RequestDecisions.NobodyDecidesOwn | apps/api/src/modules/requests/request-approval.service.ts:311-322 | over every run nobody decides on a request of their own, but by force |
| RequestService.Service.ConcludeRequest | apps/api/src/modules/requests/request-approval.service.ts:79-106 | status, effect and document change together, or roll back |
| RequestService.Service.ActivateRound | apps/api/src/modules/requests/request-approval.service.ts:108-120 | exactly the steps of the round become pending |
| RequestService.Service.AssertIsApprover | apps/api/src/modules/requests/request-approval.service.ts:311-364 | who may decide: not the requester, administrators, an organization's administrators, holders of a pending step |
| RequestService.Service.BulkApproveRequests | apps/api/src/modules/requests/request-approval.service.ts:289-303 | the loop approves each in turn and reports which succeeded |
| RequestService.Service.BuildSteps | apps/api/src/modules/requests/requests.service.ts:480-520 | one step per rule detail, those of round 1 pending, or no approver |
| RequestService.Service.Handle | apps/api/src/modules/requests/request-approval.service.ts:35-303 | any call answers as its transition and keeps the service valid |
| LeaveLedgerLaws.AddLeaveKeepsSumIff | apps/api/src/modules/requests/request-effects.service.ts:298-381 | a new leave keeps used = sum of leaves iff it is charged to the row its type resolves to |
| LeaveLedgerLaws.AdminLeaveKeepsSumIff | apps/api/src/modules/leaves/leaves.service.ts:417-467 | a leave entered by an administrator keeps it iff its type is its group's representative |
| LeaveLedgerLaws.AdminLeaveOnHalfDays | apps/api/src/modules/leaves/leaves.service.ts:417-467 | a half-day leave entered on days granted by hand to the half-day type breaks the books |
| LeaveLedgerLaws.ModifyKeepsSumIff | apps/api/src/modules/requests/request-effects.service.ts:385-449 | a modification keeps it iff the change leaves the leave in its year, or makes an hourly leave of at most two minutes vanish into a row of the other year |
| LeaveLedgerLaws.DeleteKeepsSum | apps/api/src/modules/requests/request-effects.service.ts:453-485 | deletion keeps it |
| LeaveLedgerLaws.AccrualKeepsSum | apps/api/src/modules/leaves/leaves.service.ts:514-546 | grants, accrual and expiry keep it |
| LeaveLedgerLaws.GrantsAddUp | apps/api/src/modules/leaves/leaves.service.ts:514-546 | any grants on a row add up in accrued and remaining and leave used days and every other row alone |
| LeaveLedgerLaws.UsedIsSumOfLeaves | apps/api/src/modules/requests/request-effects.service.ts:276-485 | over every run of same-year changes and representative admin leaves, used days are those of the live leaves |
| LeaveLedgerLaws.ModifyAllMovesOwnDays | apps/api/src/modules/requests/request-effects.service.ts:385-449 | through any modifications within the year only the leave's own days move, on its own row |
| LeaveLedgerLaws.CreateModifyDeleteNetsToZero | apps/api/src/modules/requests/request-effects.service.ts:298-485 | create, modify any number of times, delete: every balance is as before |
| LeaveLedgerLaws.MoveAcrossNewYear | apps/api/src/modules/requests/request-effects.service.ts:385-449 | a concrete leave moved to the next year leaves the books wrong |
| LeaveLedgerLaws.OpConserves | apps/api/src/modules/leaves/leave-accrual.scheduler.ts:75-89 | only expiry forfeits days, and exactly what was left |
| LeaveLedgerLaws.LedgerConserves | apps/api/src/modules/leaves/leave-accrual.scheduler.ts:69-89 | on every row, over every run, accrued = used + remaining + forfeited |
| LeaveRepresentative.DebitedTypeIsCredited | apps/api/src/modules/requests/request-effects.service.ts:276-296 | with the types in one order, the type a leave debits is the one its group's rule credits |
| LeaveRepresentative.ResolveIsIdempotent | apps/api/src/modules/requests/request-effects.service.ts:276-296 | the balance type is of the same group and resolves to itself |
| LeaveRepresentative.GroupSharesBalance | apps/api/src/modules/requests/request-effects.service.ts:276-296 | all types of a group debit one balance type |
| LeaveRepresentative.LeaveDebitsCreditedRow | apps/api/src/modules/leaves/leave-accrual.service.ts:13-107 | a leave is charged to the very row a run of its group's rule in that year credits |
| LeaveRepresentative.CreditedIsCandidate | apps/api/src/modules/leaves/leave-accrual.service.ts:96-107 | the rule credits an active full-day type if there is one, else an active type, and nothing iff there is none |
| LeaveRepresentative.OrderIsIrrelevantIff | apps/api/src/modules/requests/request-effects.service.ts:286-294 | debit and credit agree whatever order the two unordered queries return iff the group has one type its days may be kept in |
| LeaveRepresentative.TwoRepresentatives | apps/api/src/modules/requests/request-effects.service.ts:286-294 | two full-day types listed in different orders: the request debits one and the rule credits the other |
| LeaveAccrual.MonthlyCountInYear | apps/api/src/modules/leaves/leave-accrual.service.ts:193-215 | at most eleven monthly grants for a reference date clamped to the year |
| LeaveTargets.GrantIs | apps/api/src/modules/leaves/leave-accrual.service.ts:126-161 | the first of the most demanding items the service reaches decides: its days, for each month that counts if it grants monthly; nothing iff no item is reached or no month counts |
| LeaveTargets.CountIsMonthsPassed | apps/api/src/modules/leaves/leave-accrual.service.ts:193-215 | as many months count as days of the month have come since the year or the service began, at most twelve |
| LeaveAccrual.MonthlyCountMonotone | apps/api/src/modules/leaves/leave-accrual.service.ts:193-215 | the count never falls as days pass |
| LeaveAccrual.AccrualCollapses | apps/api/src/modules/leaves/leave-accrual.service.ts:13-88 | any sequence of rule runs leaves every row at the maximum of its start and all targets of its employee, remaining grown by as much, used as it was; rows created on the way and rows not granted on included |
| LeaveAccrual.RunCollapses | apps/api/src/modules/leaves/leave-accrual.service.ts:62-87 | the same for one run over its employees |
| LeaveAccrual.RuleExtendsRun | apps/api/src/modules/leaves/leave-accrual.service.ts:62-87 | a run of a group's rule after any operations of the ledger is a run of these operations and one target per employee granted, so the laws over runs hold through it |
| LeaveAccrual.MaxTargetIsMaximum | apps/api/src/modules/leaves/leave-accrual.service.ts:217-261 | that maximum bounds them all and is one of them |
| LeaveAccrual.RunReaches | apps/api/src/modules/leaves/leave-accrual.service.ts:13-88 | after a rule run everyone has at least their target |
| LeaveAccrual.RerunProcessesNobody | apps/api/src/modules/leaves/leave-accrual.service.ts:13-88 | an identical rerun changes nothing and processes nobody |
| LeaveStore.Store.RunAccrualRule | apps/api/src/modules/leaves/leave-accrual.service.ts:13-88 | the type is picked once and the loop over employees is the rule's fold, count included |
| LeaveStore.Store.ExpireOverdueBalances | apps/api/src/modules/leaves/leave-accrual.scheduler.ts:75-89 | the loop zeroes what is left of exactly the overdue rows |
| LeaveStore.Store.Handle | apps/api/src/modules/requests/request-effects.service.ts:298-485 | any ledger operation in place answers as its transition, and one that throws changes nothing |
| LeaveStore.Store.ComputeLeaveDaysUsed | apps/api/src/modules/requests/request-effects.service.ts:199-271 | the hours of an hourly leave, else what the loop over the days counts, times the deduction |
| LeaveDays.DailyCharge | apps/api/src/modules/requests/request-effects.service.ts:218-233 | a leave of days costs the business days of its period, at least one, times the deduction of its type, a day where that is zero |
| LeaveDays.SplitChargesSameIff | apps/api/src/modules/requests/request-effects.service.ts:218-233 | two leaves instead of one cost the same iff there are business days in both parts |
| LeaveDays.WeekCostsFiveDays | apps/api/src/modules/requests/request-effects.service.ts:218-233 | from Monday to Friday without holidays a full-day leave costs five days |
| LeaveDays.HourlyCharge | apps/api/src/modules/requests/request-effects.service.ts:236-271 | a leave of hours fails iff it does not end after it starts or exceeds what its type pays, and else costs its part of eight hours to the nearest hundredth |
| LeaveDays.EightHoursAreOneDay | apps/api/src/modules/requests/request-effects.service.ts:236-271 | every eight hours cost exactly one day |
| LeaveDays.DatesInOrder | apps/api/src/modules/leaves/leaves.service.ts:502-510 | the order of dates that expiry goes by is total: by year, month and day |
| LeaveDays.CreateCharges | apps/api/src/modules/requests/request-effects.service.ts:298-383 | a leave is created iff its type exists, its days can be computed and its row can pay them, and is stored with these days, which the row moves from remaining to used |
| LeaveDays.ModifyCharges | apps/api/src/modules/requests/request-effects.service.ts:385-451 | a changed leave has the new dates and days, and the difference moves on the row of its old year |
| LeaveDays.DeleteGivesBack | apps/api/src/modules/requests/request-effects.service.ts:453-485 | a leave is deleted iff it is the employee's, and its days go back to the row of its year |
| LeaveDays.AdminCharges | apps/api/src/modules/leaves/leaves.service.ts:417-467 | a leave of an administrator costs the calendar days of its period, at least one, on the row of its own type |
| LeaveDays.CheckedIsApprovableIff | apps/api/src/modules/requests/request-effects.service.ts:82-144 | the check at request time passes iff the leave could be approved at once, its type is active and an hourly leave has one day |
| LeaveDays.ExpiryFollowsGrants | apps/api/src/modules/leaves/leave-accrual.service.ts:217-264 | grants, and targets that raise the row, set the expiry date they bring and else keep the row's |
| LeaveDays.ExpiryForfeits | apps/api/src/modules/leaves/leave-accrual.scheduler.ts:75-89 | the daily job takes what is left of a row iff its expiry date has passed |
| BusinessDays.CountBusinessDays | apps/api/src/modules/requests/request-effects.service.ts:199-216 | the loop counts the days of the period that are no weekend day, exact holiday or annually repeating holiday |
| BusinessDays.SplitAddsUp | apps/api/src/modules/requests/request-effects.service.ts:199-216 | a period split in two counts the same days |
| BusinessDays.HolidayTakesItsDay | apps/api/src/modules/requests/request-effects.service.ts:178-216 | a new holiday takes its own day from the count iff that was counted, and no other |
| BusinessDays.RepeatingTakesItsDays | apps/api/src/modules/requests/request-effects.service.ts:178-216 | one that comes back every year takes every day of that date |
| BusinessDays.Weekdays | apps/api/src/modules/requests/request-effects.service.ts:208-209 | day 0 was a Thursday and weekdays follow each other |
| BusinessDays.LongerCountsMore | apps/api/src/modules/requests/request-effects.service.ts:199-216 | a longer period never counts fewer |
| BusinessDays.FiveInAWeek | apps/api/src/modules/requests/request-effects.service.ts:198-216 | any seven days hold at most five business days, and five without holidays |
| Organizations.WalkSeesHundred | apps/api/src/modules/organizations/organizations.service.ts:265-294 | the walk meets an organization iff it is among the first hundred ancestors |
| Organizations.MoveKeepsForest | apps/api/src/modules/organizations/organizations.service.ts:58-97 | hanging a node under something not below it keeps the graph acyclic |
| Organizations.MoveBelowMakesCycle | apps/api/src/modules/organizations/organizations.service.ts:58-97 | hanging it under something below it makes a cycle |
| Organizations.AcceptedMoveKeepsForestIff | apps/api/src/modules/organizations/organizations.service.ts:265-294 | an accepted move keeps the forest iff the node is not beyond the hundredth ancestor |
| Organizations.CheckIsExact | apps/api/src/modules/organizations/organizations.service.ts:265-294 | up to a hundred active organizations the check refuses exactly the moves that make a cycle |
| Organizations.CreateKeepsInv | apps/api/src/modules/organizations/organizations.service.ts:25-54 | creation keeps the forest with active parents |
| Organizations.UpdateKeepsInv | apps/api/src/modules/organizations/organizations.service.ts:58-97 | moving keeps it |
| Organizations.RemoveKeepsInv | apps/api/src/modules/organizations/organizations.service.ts:197-242 | soft deletion keeps it |
| Organizations.RunKeepsInv | apps/api/src/modules/organizations/organizations.service.ts:25-242 | every run that stays within a hundred active organizations keeps it |
| OrganizationPlaces.CreateIff | apps/api/src/modules/organizations/organizations.service.ts:25-54 | created iff the parent is active or none; the new one is active, right below that parent, all others as they were |
| OrganizationPlaces.UpdateIff | apps/api/src/modules/organizations/organizations.service.ts:58-97 | moved iff active, and the new parent is active without it among its first hundred ancestors; it then stands right below that parent, or at the top |
| OrganizationPlaces.RemoveIff | apps/api/src/modules/organizations/organizations.service.ts:197-242 | removed iff active without active children, employees and shifts; it stays in the table, inactive |
| OrganizationPlaces.CreatedInPlace | apps/api/src/modules/organizations/organizations.service.ts:25-54 | the company's tree then has it right below the parent asked for, once |
| OrganizationPlaces.MovedInPlace | apps/api/src/modules/organizations/organizations.service.ts:58-97 | so it has a moved one, in companies of at most a hundred |
| OrganizationPlaces.RemovedFromTree | apps/api/src/modules/organizations/organizations.service.ts:197-242 | a removed one is in the tree no more, and all others are |
| Organizations.HundredAndOneIsTooMany | apps/api/src/modules/organizations/organizations.service.ts:265-294 | with a hundred and one in a row the check lets a cycle through |
| Organizations.OrganizationService.AssertNoParentCycle | apps/api/src/modules/organizations/organizations.service.ts:265-294 | the loop ends and refuses iff the walk meets the organization |
| Organizations.OrganizationService.UpdateOrg | apps/api/src/modules/organizations/organizations.service.ts:58-97 | as the transition, or nothing but the error |
| OrganizationTree.TreeCounts | apps/api/src/modules/organizations/organizations.service.ts:296-306 | below any parent that reaches the top the tree lists an organization once iff its chain of parents meets that parent and reaches the top, and else not at all |
| OrganizationTree.TreePlaces | apps/api/src/modules/organizations/organizations.service.ts:296-306 | every node hangs under its parent |
| OrganizationTree.WholeTree | apps/api/src/modules/organizations/organizations.service.ts:296-306 | for any listing with distinct ids, cycles included, the builder ends at the top and lists an organization once iff its chain of parents reaches the top |
| OrganizationTree.TreeListsEveryoneIff | apps/api/src/modules/organizations/organizations.service.ts:296-306 | everyone is in the tree iff the listing is a forest |
| OrganizationTree.TreeListsEveryoneOnce | apps/api/src/modules/organizations/organizations.service.ts:16-23 | while the hierarchy invariant holds the tree lists the active organizations, each once, and nobody else |
| OrganizationTree.CompanyLost | apps/api/src/modules/organizations/organizations.service.ts:265-306 | after the move let through among a hundred and one all are active and the tree is empty |
| DeptApprover.FirstServing | apps/api/src/modules/requests/requests.service.ts:565-577 | the first employee in order of creation who serves, or none iff nobody does |
| DeptApprover.ResolveDeptApprover | apps/api/src/modules/requests/requests.service.ts:549-586 | the guarded loop ends with the approver the climb finds |
| DeptApprover.ClimbFindsNearest | apps/api/src/modules/requests/requests.service.ts:560-585 | the approver of the nearest of twenty departments upwards that has one, none iff none has, even on a cyclic graph |
| DeptApprover.ApproverIsSomeoneElse | apps/api/src/modules/requests/requests.service.ts:563-577 | never the requester, and a general administrator only where the department has no administrator of its own |
| DocNumberFormat.RenderInjectiveIff | apps/api/src/modules/documents/documents.helpers.ts:107-123 | for a fixed text two sequence numbers render alike iff they are equal or no sequence token is left |
| DocNumberFormat.PatternKeepsSeq | apps/api/src/modules/documents/documents.helpers.ts:114-119 | the other replacements never destroy a sequence token, whatever the abbreviations are |
| DocNumberFormat.DocNumberInjective | apps/api/src/modules/documents/documents.helpers.ts:107-123 | so a pattern with a sequence token, or several of any widths, is injective in the sequence number |
| DocNumberMeaning.NumberIsMeaning | apps/api/src/modules/documents/documents.helpers.ts:100-123 | with no opening brace in the abbreviations a number is its pattern with the value of each token in its place |
| DocNumberMeaning.AbbreviationIsScanned | apps/api/src/modules/documents/documents.helpers.ts:107-123 | an abbreviation that reads like a token is replaced again |
| DocNumberRegister.ApplyKeepsInv | apps/api/src/modules/documents/document-steps.service.ts:159-220 | every call keeps: numbers of a year have different sequence numbers, none beyond the counter |
| DocNumberRegister.SubmitIs | apps/api/src/modules/documents/document-steps.service.ts:159-220 | a draft gets the number after the counter, or 1 in a year without numbers under a yearly reset, rendered from the rule, iff no document has that text; nothing else changes |
| DocNumberRegister.NumbersFollow | apps/api/src/modules/documents/document-steps.service.ts:159-220 | the next submission of the year gets the next number |
| DocNumberRegister.PapersKeepNumbers | apps/api/src/modules/documents/documents.service.ts:142-257 | a document stays until a call takes it out that may, and keeps its number as long as it stays |
| DocNumberRegister.OtherCallsLeave | apps/api/src/modules/documents/document-forms.service.ts:194-214 | a change of the rule keeps the counter, and only settling changes the status of a document that stays |
| DocNumberRegister.RunKeepsNumbersApart | apps/api/src/modules/documents/document-steps.service.ts:159-220 | over every run, through resets, deletions and rule changes, surviving numbers of a year stay apart, their texts too when the pattern text is the same |
| DocNumberRegister.RefusedIff | apps/api/src/modules/documents/document-steps.service.ts:194-219 | a draft is refused iff its number is in use on another form, a survivor of the same text is in the way (any if the text has no sequence token, else one of an earlier year with the next sequence number), or a number of another text reads the same |
| DocNumberRegister.RefusedByEarlierYearIff | apps/api/src/modules/documents/document-steps.service.ts:194-219 | with one text for all, iff a survivor of an earlier year has the next sequence number |
| DocNumberRegister.ResetCollides | apps/api/src/modules/documents/document-steps.service.ts:194-219 | with a yearly reset and a text without the year, one numbered document makes the first submission of every later year refused |
| DocNumberRegister.PlainSequenceCollides | apps/api/src/modules/documents/document-steps.service.ts:194-219 | a run of the pattern {SEQ} from 2025 that is refused in 2026 |
| DocNumberRegister.StaysBlocked | apps/api/src/modules/documents/document-steps.service.ts:194-219 | every further submission of that year from the same text is refused too until the earlier document or the rule goes |
| DocNumberRegister.ClimbingRun | apps/api/src/modules/documents/document-steps.service.ts:213-219 | without resets the next number is never that of a document of the same text, over every run |
| DocNumberRegister.FallbackRefusedIff | apps/api/src/modules/documents/document-steps.service.ts:186-192 | a form without a rule refuses iff the number after the count is in use |
| DocNumberRegister.FallbackAfterDelete | apps/api/src/modules/documents/document-steps.service.ts:186-192 | after one of n numbers is deleted, iff it was not the last |
| DocNumberRegister.FallbackCountsUp | apps/api/src/modules/documents/document-steps.service.ts:186-192 | submissions without deletions number 1, 2, 3 and so on, none refused |
| DocNumberRegister.FallbackStaysBlocked | apps/api/src/modules/documents/document-steps.service.ts:186-192 | after such a deletion every further submission of the year is refused, however many |
| DocNumberDesk.NumberDesk.IssueDocNumber | apps/api/src/modules/documents/document-steps.service.ts:159-220 | the counter is reset when the year has no number, then advanced, and rendered |
| DocNumberDesk.NumberDesk.SubmitDraft | apps/api/src/modules/documents/document-steps.service.ts:64-73 | as the submission transition; a number in use rolls the counter back |
| DocNumberDesk.NumberDesk.SubmitWithRetry | apps/api/src/modules/documents/documents.service.ts:315-329 | the second try after a number in use comes to the same outcome as the first when nothing was committed in between |
| DocNumberDesk.SortOut | apps/api/src/modules/documents/documents.service.ts:231-246 | the loop sorts ids into deletable ones and skipped ones with their reason |
| DocNumberDesk.AllAccounted | apps/api/src/modules/documents/documents.service.ts:215-246 | every distinct id is deleted or skipped, once |
| DocNumberDesk.NumberDesk.BulkForceDelete | apps/api/src/modules/documents/documents.service.ts:207-257 | exactly the deletable documents go, the register's invariant stays |
| SettingsTable.KeysDiffer | apps/api/src/modules/companies/company-settings.service.ts:6-35 | no two fields of the API share a row |
| SettingsLens.PutGetIff | apps/api/src/modules/companies/company-settings.service.ts:109-142 | a patched field reads back what was put iff that is not null, else its default |
| SettingsLens.PutFrame | apps/api/src/modules/companies/company-settings.service.ts:125-138 | fields not patched, or patched with undefined, and all other rows stay |
| SettingsLens.GetPutIff | apps/api/src/modules/companies/company-settings.service.ts:109-142 | putting back what was shown changes no shown value, and no row iff all were stored |
| SettingsLens.PutPut | apps/api/src/modules/companies/company-settings.service.ts:120-142 | two patches in a row are their merge |
| SettingsCache.DottedInjective | apps/api/src/modules/companies/company-settings.service.ts:155-159 | joining section and key with a dot confuses no two rows |
| SettingsCache.StepKeepsInv | apps/api/src/modules/companies/company-settings.service.ts:144-163 | every call keeps each entry, expired or not, equal to the table but for the invite code |
| SettingsCache.CachedReadIsExact | apps/api/src/modules/companies/company-settings.service.ts:87-95 | after any run of reads, patches, permission and AI patches and invite codes a cached read equals the table's: always but for the invite code, and for that after a minute |
| SettingsCache.NewCodeSeenIff | apps/api/src/modules/companies/companies.service.ts:187-204 | within that minute a cached read sees a new code iff no entry is live or it holds the same code |
| SettingsCache.TableIsLatest | apps/api/src/modules/companies/company-settings.service.ts:120-142 | over every run of all writers a row holds what was written to it last |
| SettingsCache.CachedReadIsLatest | apps/api/src/modules/companies/company-settings.service.ts:87-163 | so a cached read gives what was written last, for the invite code once a minute has passed |
| SettingsCache.PageShowsRows | apps/api/src/modules/companies/company-settings.service.ts:109-118 | the settings page shows the table's values through the cache |
| SettingsCache.FlattenRows | apps/api/src/modules/companies/company-settings.service.ts:155-159 | the loop loads every row under its dotted key and nothing else |
| SettingsCache.SettingsService.LoadCompany | apps/api/src/modules/companies/company-settings.service.ts:149-163 | a live entry is used, otherwise a new one is stored for a minute |
| SettingsCache.SettingsService.GetSetting | apps/api/src/modules/companies/company-settings.service.ts:87-95 | the value as cached reads give it, or the fallback; the table's own, for the invite code once a minute has passed since it was written |
| SettingsCache.SettingsService.GetAllForApi | apps/api/src/modules/companies/company-settings.service.ts:109-118 | every field of the API with the table's value or its default |
| SettingsCache.SettingsService.PatchFromApi | apps/api/src/modules/companies/company-settings.service.ts:120-142 | writes the patch, drops the entry and returns the patched page |
| SettingsCache.SettingsService.PatchOwnSection | apps/api/src/modules/companies/permission-settings.service.ts:60-75 | writes its section and drops the entry, or does nothing when there is nothing to write |
| SettingsCache.SettingsService.GenerateInviteCode | apps/api/src/modules/companies/companies.service.ts:187-204 | writes the code past the cache |
| SchedulePattern.FindNextNonHoliday | apps/api/src/modules/schedule-patterns/schedule-patterns.service.ts:273-279 | the loop ends at the least later day outside the holidays |
| SchedulePattern.ShiftOnIs | apps/api/src/modules/schedule-patterns/schedule-patterns.service.ts:157-206 | a shift is of the template in the day's slot of the cycle, for the employee and their primary organization, from the start time on the day it falls on to the next time it is the end time |
| SchedulePattern.ShiftIsUnique | apps/api/src/modules/schedule-patterns/schedule-patterns.service.ts:157-206 | these facts determine the shift |
| SchedulePattern.StartsOutsideHolidays | apps/api/src/modules/schedule-patterns/schedule-patterns.service.ts:163-171 | under both skip policies shifts start outside the loaded holidays, at most one day past the end |
| SchedulePattern.LandsOnHolidayIff | apps/api/src/modules/schedule-patterns/schedule-patterns.service.ts:243-261 | a shifted day is still a company holiday iff all days to the end and the one after are |
| SchedulePattern.LandsOnHoliday | apps/api/src/modules/schedule-patterns/schedule-patterns.service.ts:243-261 | a plan of one holiday whose shift moves to the holiday after it |
| SchedulePattern.WorkedDays | apps/api/src/modules/schedule-patterns/schedule-patterns.service.ts:159-181 | the days that get shifts: not skipped, with a known template in their cycle slot |
| SchedulePattern.OneShiftEach | apps/api/src/modules/schedule-patterns/schedule-patterns.service.ts:157-209 | exactly one such shift per worked day and employee with a primary organization, by position |
| SchedulePattern.SharedTargetIff | apps/api/src/modules/schedule-patterns/schedule-patterns.service.ts:163-171 | two days are moved to one iff days are shifted and the earlier and all between are holidays |
| SchedulePattern.BookedTwiceIff | apps/api/src/modules/schedule-patterns/schedule-patterns.service.ts:163-217 | an employee gets the same shift for two worked days iff they share the template and the earlier is shifted over holidays up to the later |
| SchedulePattern.BookedTwice | apps/api/src/modules/schedule-patterns/schedule-patterns.service.ts:163-217 | a holiday and the working day after it give two equal shifts |
| SchedulePattern.ApplyPattern | apps/api/src/modules/schedule-patterns/schedule-patterns.service.ts:95-209 | the loop builds one such shift for each, in its place, or refuses when an employee is missing |
| SchedulePattern.ShiftsOfDay | apps/api/src/modules/schedule-patterns/schedule-patterns.service.ts:160-208 | one turn of the loop builds the shifts of its day |
| RefreshQueue.StepKeepsInv | apps/web/src/lib/api-client.ts:33-84 | every callback keeps single flight, waiting and settlement in order |
| RefreshQueue.OneRefreshAtATime | apps/web/src/lib/api-client.ts:40-80 | in every interleaving at most one refresh is in flight and nobody waits without one |
| RefreshQueue.SettledExactlyOnce | apps/web/src/lib/api-client.ts:14-20 | each queued promise is settled at most once, by the refresh it waited on with its answer, and all are once nothing is in flight |
| RefreshQueue.StartersDiffer | apps/web/src/lib/api-client.ts:40-51 | no request starts two refreshes |
| RefreshQueue.ArrivalIs | apps/web/src/lib/api-client.ts:35-58 | a first unauthorised response waits for the refresh in flight, or starts one, denied at once without a token; any other response changes nothing |
| RefreshQueue.EndIs | apps/web/src/lib/api-client.ts:61-79 | when a refresh ends nothing is in flight and everyone who waited has its answer, in order |
| RefreshQueue.NobodyIsDropped | apps/web/src/lib/api-client.ts:35-82 | in every interleaving the responses served are as many as refreshes started and promises queued |
| RefreshQueue.ApiClient.ProcessQueue | apps/web/src/lib/api-client.ts:14-20 | the loop settles the whole queue in order and empties it |
| RefreshQueue.ApiClient.OnError | apps/web/src/lib/api-client.ts:35-82 | as the transition: wait, start, fail at once without a token, or ignore |
| RefreshQueue.ApiClient.OnRefreshEnds | apps/web/src/lib/api-client.ts:61-79 | as the transition: settle, lower the flag |
| JwtDecoder.OverflowIsInvisible | apps/mobile/src/lib/jwt.ts:34-38 | with 32-bit wraparound a byte depends only on the last six bits and the new value |
| JwtDecoder.OthersAreSkipped | apps/mobile/src/lib/jwt.ts:30-33 | only characters of the alphabet before the padding are read |
| JwtDecoder.DecodedBytesRoundTrip | apps/mobile/src/lib/jwt.ts:21-40 | every byte sequence comes back from its base64url form, padded or not |
| JwtDecoder.ScalarRoundTrip | apps/mobile/src/lib/jwt.ts:49-69 | a scalar value's UTF-8 gives its UTF-16, surrogate pair included |
| JwtDecoder.TextRoundTrip | apps/mobile/src/lib/jwt.ts:21-72 | every text comes back as UTF-16 from the base64url form of its UTF-8 |
| JwtDecoder.DecodeBytes | apps/mobile/src/lib/jwt.ts:30-40 | the accumulator loop pushes the specified bytes |
| JwtDecoder.DecodeUtf8 | apps/mobile/src/lib/jwt.ts:46-72 | the index loop appends the specified code units, reading past the end as zero |
| JwtDecoder.DecodePayload | apps/mobile/src/lib/jwt.ts:21-44 | both loops together |
| Csv.RowRoundTripIff | apps/web/src/lib/csv.ts:7-46 | a printed row is read back iff it has a field, whatever its fields hold |
| Csv.PrintRowInjective | apps/web/src/lib/csv.ts:7-15 | two rows print alike iff equal, or both among the two that print as an empty line |
| Csv.ParseCsvLine | apps/web/src/lib/csv.ts:18-46 | the index-skipping loop parses as specified |
| CsvFile.LinesOfFile | apps/web/src/lib/csv.ts:13-15 | without line feeds in fields the lines of a file are its printed rows |
| CsvFile.ReadRows | apps/web/src/app/admin/employees/EmployeesPanel.tsx:255-285 | whatever is uploaded, the rows read have fields, trimmed and without line feeds |
| CsvFile.FileRoundTripIff | apps/web/src/app/admin/employees/EmployeesPanel.tsx:255-285 | a file, marked or not, is read back iff it has a header and a row and every row has a field, is not one empty field, and has only trimmed fields without line feeds |

## Left out

- ApprovalLaws.PendingLine: assumes that no two flow steps share a stepOrder, which the service does not enforce; ApprovalTies.OneCurrentIffTieFree shows that with a tie some calls lead to two pending steps. The other line laws assume the same.
- Organizations.RunKeepsInv: covers companies of at most a hundred active organizations; HundredAndOneIsTooMany shows why.
- LeaveLedgerLaws.UsedIsSumOfLeaves: covers changes within a year and administrator leaves on representative types; the iff lemmas give the exact conditions.
- SettingsCache.CachedReadIsExact: covers the invite code only a minute after it was written (NewCodeSeenIff says what holds before). Nothing reads that code through the cache; joining a company queries the table.
- DocNumberMeaning.NumberIsMeaning: assumes that neither abbreviation holds an opening brace; AbbreviationIsScanned shows why.
- DocNumberRegister.RunKeepsNumbersApart: years of submissions never go back; texts are compared for documents rendered from the same text.
- Documents: step resolution (department managers, shared and default lines, membership checks), comments, timestamps, opinions' text, events and audit records. Steps arrive resolved. A row's id is its place in the step table. Carbon copies are references and viewers only, as the input schema says.
- Documents linked to HR requests: the actions test a field that creating a request never writes, so the refusal is modelled but no run of the model reaches it. Agreement of request and document when such a document is recalled or acted on here is therefore not claimed.
- Requests: approve looks its rule up by kind; the scoped choice at creation, and edits of rules, are outside the model. Rounds and required counts are at least 1, as their schema demands. Shift and attendance requests are one constructor whose content is a number: their effects leave the ledger alone and throw when the state says so, their rows are not modelled, nor is the check made when a shift request is submitted. Malformed leave payloads are not modelled. Who approves for a department arrives as an input of creation; DeptApprover proves the search for it by itself.
- Ledger: days are hundredths without overflow; the day numbers of dates, expiry dates and months of service are inputs; the catalogue is fixed and, but for LeaveRepresentative, listed in one order; time zones are ignored. That remaining days stay at or above zero is not claimed, since a modification does not check the balance again.
- Organizations: names, managers and other fields; whether an organization has employees or shifts is an input. The depth of descendants after a move is not claimed, since only the moved one is updated.
- Document numbers: administrator checks; `$` sequences in abbreviations, which the string replacement interprets; characters are code points. Numbers of other forms arrive as a set. The no-rule fallback is treated apart from the register.
- Settings: one server process, calls atomic; getNumber, masking of the AI key, and reading permissions as booleans.
- Schedule patterns: weekly-hour warnings, `skipDuplicates`, which drops nothing without a unique index, and the loading of employees and templates. Annually repeating holidays are ignored by the source here, and so by the model.
- Token refresh: cookies, headers, redirects, and resending the requests; a resent request that fails again is a new arrival.
- Decoder: parsing of the claims, and inputs outside the basic plane, whose length only affects padding.
- CSV: finding columns by their header, the meaning of the columns and date normalising of the upload; every row is read whole.
- Attendance, notifications, mail, storage, queues, reports, user interface, authentication and the database itself.
- Races between loading a row and the transaction that follows: every call is one atomic step.
