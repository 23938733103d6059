/** M-of-N approval in rounds: which round a request is in, and how approvals fill the rounds. */
module RequestRounds {
  import opened Wrappers

  type Id = nat

  /** A row of approval_rule_details: a round and how many approvals it asks for. */
  datatype Detail = Detail(round: int, requiredCount: int)

  /** An approval rule; None where a company has none. */
  datatype Rule = Rule(maxApprovalRounds: int, details: seq<Detail>, isAutoApprove: bool)

  datatype Verdict = GaveApproval | GaveRejection | ForcedApproval | ForcedRejection

  /** A row of request_approvals. */
  datatype Approval = Approval(round: int, approver: Id, verdict: Verdict)

  function Max(a: int, b: int): int {
    if a >= b then a else b
  }

  function DetailsOf(rule: Option<Rule>): seq<Detail> {
    if rule.Some? then rule.value.details else []
  }

  /** The greatest requiredCount of the round's details, at least 1. */
  function RequiredIn(details: seq<Detail>, round: int): (n: nat)
    ensures n >= 1
    ensures forall d :: d in details && d.round == round ==> d.requiredCount <= n
  {
    if details == [] then 1
    else
      var rest := RequiredIn(details[1..], round);
      if details[0].round == round then Max(details[0].requiredCount, rest) else rest
  }

  function RoundRequired(rule: Option<Rule>, round: int): nat {
    RequiredIn(DetailsOf(rule), round)
  }

  function LastRoundIn(details: seq<Detail>): (m: nat)
    ensures forall d :: d in details ==> d.round <= m
  {
    if details == [] then 0 else Max(details[0].round, LastRoundIn(details[1..]))
  }

  function MaxRounds(rule: Option<Rule>): (m: nat)
    ensures m >= 1
    ensures forall d :: d in DetailsOf(rule) ==> d.round <= m
  {
    Max(Max(1, if rule.Some? then rule.value.maxApprovalRounds else 1), LastRoundIn(DetailsOf(rule)))
  }

  /** How many approvals of the round are recorded. */
  function CountIn(approvals: seq<Approval>, round: int): nat {
    if approvals == [] then 0 else
    var last := approvals[|approvals| - 1];
    CountIn(approvals[..|approvals| - 1], round) +
      if last.round == round && last.verdict.GaveApproval? then 1 else 0
  }

  /** The lowest round at or after `r` that still lacks approvals, or the last one. */
  function RoundFrom(rule: Option<Rule>, approvals: seq<Approval>, r: nat): nat
    decreases MaxRounds(rule) - r
  {
    if r > MaxRounds(rule) then MaxRounds(rule)
    else if CountIn(approvals, r) < RoundRequired(rule, r) then r
    else RoundFrom(rule, approvals, r + 1)
  }

  function CurrentRound(rule: Option<Rule>, approvals: seq<Approval>): nat {
    RoundFrom(rule, approvals, 1)
  }

  /** The round-scanning loop of the service. */
  method GetCurrentRound(rule: Option<Rule>, approvals: seq<Approval>) returns (round: nat)
    ensures round == CurrentRound(rule, approvals)
  {
    var maxRounds := MaxRounds(rule);
    var r := 1;
    while r <= maxRounds
      invariant 1 <= r <= maxRounds + 1
      invariant CurrentRound(rule, approvals) == RoundFrom(rule, approvals, r)
    {
      if CountIn(approvals, r) < RoundRequired(rule, r) {
        return r;
      }
      r := r + 1;
    }
    return maxRounds;
  }

  predicate HasApproved(approvals: seq<Approval>, round: int, approver: Id) {
    exists i :: 0 <= i < |approvals| && approvals[i] == Approval(round, approver, GaveApproval)
  }

  /** Total approvals the rounds `1..r` ask for. */
  function RequiredUpTo(rule: Option<Rule>, r: nat): nat {
    if r == 0 then 0 else RequiredUpTo(rule, r - 1) + RoundRequired(rule, r)
  }

  // ── The invariant of a request under approval ──

  /** Only approvals, of rounds up to `cur`, and none twice by one approver in one round. */
  ghost predicate OncePerRound(approvals: seq<Approval>, cur: nat) {
    && (forall i :: 0 <= i < |approvals| ==> approvals[i].verdict.GaveApproval?)
    && (forall i :: 0 <= i < |approvals| ==> 1 <= approvals[i].round <= cur)
    && (forall i, j :: 0 <= i < j < |approvals| && approvals[i].round == approvals[j].round ==>
         approvals[i].approver != approvals[j].approver)
  }

  /** Rounds before `cur` are exactly full, `cur` lacks at least one, later ones are untouched, and
      nobody approved a round twice. */
  ghost predicate FillsInOrder(rule: Option<Rule>, approvals: seq<Approval>, cur: nat) {
    && 1 <= cur <= MaxRounds(rule)
    && OncePerRound(approvals, cur)
    && (forall r :: 1 <= r < cur ==> CountIn(approvals, r) == RoundRequired(rule, r))
    && CountIn(approvals, cur) < RoundRequired(rule, cur)
  }

  lemma {:induction false} NoneLater(approvals: seq<Approval>, round: int)
    requires forall i :: 0 <= i < |approvals| ==> approvals[i].round != round
    ensures CountIn(approvals, round) == 0
  {
    if approvals != [] {
      NoneLater(approvals[..|approvals| - 1], round);
    }
  }

  lemma {:induction false} RoundFromSkipsFull(rule: Option<Rule>, approvals: seq<Approval>, r: nat, cur: nat)
    requires 1 <= r <= cur <= MaxRounds(rule)
    requires forall s :: r <= s < cur ==> CountIn(approvals, s) >= RoundRequired(rule, s)
    requires CountIn(approvals, cur) < RoundRequired(rule, cur)
    ensures RoundFrom(rule, approvals, r) == cur
    decreases cur - r
  {
    if r < cur {
      RoundFromSkipsFull(rule, approvals, r + 1, cur);
    }
  }

  /** The invariant pins the current round, and it is the one the loop finds. */
  lemma CurrentRoundIs(rule: Option<Rule>, approvals: seq<Approval>, cur: nat)
    requires FillsInOrder(rule, approvals, cur)
    ensures CurrentRound(rule, approvals) == cur
  {
    RoundFromSkipsFull(rule, approvals, 1, cur);
  }

  /** No round ever exceeds what it asks for. */
  lemma RoundsNeverExceed(rule: Option<Rule>, approvals: seq<Approval>, cur: nat, r: nat)
    requires FillsInOrder(rule, approvals, cur) && r >= 1
    ensures CountIn(approvals, r) <= RoundRequired(rule, r)
    ensures r > cur ==> CountIn(approvals, r) == 0
  {
    if r > cur {
      NoneLater(approvals, r);
    }
  }

  lemma {:induction false} CountsAddUp(rule: Option<Rule>, approvals: seq<Approval>, cur: nat)
    requires cur >= 1
    requires forall i :: 0 <= i < |approvals| ==>
      approvals[i].verdict.GaveApproval? && 1 <= approvals[i].round <= cur
    ensures |approvals| == SumCounts(approvals, cur)
  {
    if approvals == [] {
      NoApprovalsNoSum(cur);
    } else {
      var n := |approvals| - 1;
      CountsAddUp(rule, approvals[..n], cur);
      SumCountsNext(approvals, cur);
    }
  }

  function SumCounts(approvals: seq<Approval>, r: nat): nat {
    if r == 0 then 0 else SumCounts(approvals, r - 1) + CountIn(approvals, r)
  }

  lemma {:induction false} NoApprovalsNoSum(r: nat)
    ensures SumCounts([], r) == 0
  {
    if r > 0 {
      NoApprovalsNoSum(r - 1);
    }
  }

  lemma {:induction false} SumCountsNext(approvals: seq<Approval>, r: nat)
    requires approvals != [] && approvals[|approvals| - 1].verdict.GaveApproval?
    requires approvals[|approvals| - 1].round >= 1
    ensures SumCounts(approvals, r) == SumCounts(approvals[..|approvals| - 1], r) +
            if approvals[|approvals| - 1].round <= r then 1 else 0
  {
    if r > 0 {
      SumCountsNext(approvals, r - 1);
    }
  }

  lemma {:induction false} FullRoundsSum(rule: Option<Rule>, approvals: seq<Approval>, r: nat)
    requires forall s :: 1 <= s <= r ==> CountIn(approvals, s) == RoundRequired(rule, s)
    ensures SumCounts(approvals, r) == RequiredUpTo(rule, r)
  {
    if r > 0 {
      FullRoundsSum(rule, approvals, r - 1);
    }
  }

  lemma {:induction false} RequiredUpToGrows(rule: Option<Rule>, r: nat, s: nat)
    requires r <= s
    ensures RequiredUpTo(rule, r) + (s - r) <= RequiredUpTo(rule, s)
    decreases s
  {
    if r < s {
      RequiredUpToGrows(rule, r, s - 1);
    }
  }

  /** Under the invariant, how many approvals there are says which round it is. */
  lemma ApprovalsSoFar(rule: Option<Rule>, approvals: seq<Approval>, cur: nat)
    requires FillsInOrder(rule, approvals, cur)
    ensures |approvals| == RequiredUpTo(rule, cur - 1) + CountIn(approvals, cur)
    ensures |approvals| < RequiredUpTo(rule, cur) <= RequiredUpTo(rule, MaxRounds(rule))
  {
    CountsAddUp(rule, approvals, cur);
    FullRoundsSum(rule, approvals, cur - 1);
    RequiredUpToGrows(rule, cur, MaxRounds(rule));
  }

  function WithApproval(approvals: seq<Approval>, cur: int, approver: Id): seq<Approval> {
    approvals + [Approval(cur, approver, GaveApproval)]
  }

  lemma CountsAfter(approvals: seq<Approval>, cur: int, approver: Id, r: int)
    ensures CountIn(WithApproval(approvals, cur, approver), r) ==
            CountIn(approvals, r) + if r == cur then 1 else 0
  {
    assert WithApproval(approvals, cur, approver)[..|approvals|] == approvals;
  }

  lemma AllCountsAfter(approvals: seq<Approval>, cur: int, approver: Id)
    ensures forall r :: CountIn(WithApproval(approvals, cur, approver), r) ==
                        CountIn(approvals, r) + if r == cur then 1 else 0
  {
    forall r ensures CountIn(WithApproval(approvals, cur, approver), r) ==
                     CountIn(approvals, r) + if r == cur then 1 else 0
    {
      CountsAfter(approvals, cur, approver, r);
    }
  }

  /** With another approval of the current round, that round stays current or the next one opens. */
  lemma NextApprovalFills(rule: Option<Rule>, approvals: seq<Approval>, cur: nat, approver: Id)
    requires FillsInOrder(rule, approvals, cur) && !HasApproved(approvals, cur, approver)
    ensures var after := WithApproval(approvals, cur, approver);
            && (CountIn(after, cur) < RoundRequired(rule, cur) ==> FillsInOrder(rule, after, cur))
            && (CountIn(after, cur) >= RoundRequired(rule, cur) && cur < MaxRounds(rule) ==>
                  FillsInOrder(rule, after, cur + 1))
  {
    AllCountsAfter(approvals, cur, approver);
    AppendOncePerRound(approvals, cur, approver);
    if CountIn(WithApproval(approvals, cur, approver), cur) >= RoundRequired(rule, cur) && cur < MaxRounds(rule) {
      NextRoundOpens(rule, approvals, cur, approver);
    }
  }

  lemma NextRoundOpens(rule: Option<Rule>, approvals: seq<Approval>, cur: nat, approver: Id)
    requires FillsInOrder(rule, approvals, cur) && cur < MaxRounds(rule) && !HasApproved(approvals, cur, approver)
    requires CountIn(WithApproval(approvals, cur, approver), cur) >= RoundRequired(rule, cur)
    ensures FillsInOrder(rule, WithApproval(approvals, cur, approver), cur + 1)
  {
    AllCountsAfter(approvals, cur, approver);
    NoneLater(approvals, cur + 1);
    AppendOncePerRound(approvals, cur, approver);
  }

  lemma AppendOncePerRound(approvals: seq<Approval>, cur: nat, approver: Id)
    requires cur >= 1 && OncePerRound(approvals, cur) && !HasApproved(approvals, cur, approver)
    ensures OncePerRound(WithApproval(approvals, cur, approver), cur)
    ensures OncePerRound(WithApproval(approvals, cur, approver), cur + 1)
  {
    forall i | 0 <= i < |approvals| && approvals[i].round == cur ensures approvals[i].approver != approver {
      assert approvals[i] != Approval(cur, approver, GaveApproval);
    }
  }

  /** All rounds are full exactly when there are as many approvals as all rounds together ask for. */
  lemma LastApprovalIffSum(rule: Option<Rule>, approvals: seq<Approval>, cur: nat, approver: Id)
    requires FillsInOrder(rule, approvals, cur)
    ensures var after := WithApproval(approvals, cur, approver);
            CountIn(after, cur) >= RoundRequired(rule, cur) && cur >= MaxRounds(rule) <==>
            |after| == RequiredUpTo(rule, MaxRounds(rule))
  {
    ApprovalsSoFar(rule, approvals, cur);
    CountsAfter(approvals, cur, approver, cur);
    if cur < MaxRounds(rule) {
      RequiredUpToGrows(rule, cur, MaxRounds(rule));
    }
  }

  // ── What a rule asks for ──

  lemma {:induction false} RequiredIsAsked(details: seq<Detail>, round: int)
    ensures var n := RequiredIn(details, round);
            n == 1 || exists d :: d in details && d.round == round && d.requiredCount == n
  {
    if details != [] {
      RequiredIsAsked(details[1..], round);
      assert forall d :: d in details[1..] ==> d in details;
      assert details[0] in details;
    }
  }

  lemma {:induction false} LastRoundIsAsked(details: seq<Detail>)
    ensures LastRoundIn(details) == 0 || exists d :: d in details && d.round == LastRoundIn(details)
  {
    if details != [] {
      LastRoundIsAsked(details[1..]);
      assert forall d :: d in details[1..] ==> d in details;
      assert details[0] in details;
    }
  }

  /** There are as many rounds as the rule says, or as a detail of it reaches, and at least one. */
  lemma MaxRoundsIsGreatest(rule: Option<Rule>, m: nat)
    ensures MaxRounds(rule) == m <==>
            && m >= 1
            && (rule.Some? ==> rule.value.maxApprovalRounds <= m)
            && (forall d :: d in DetailsOf(rule) ==> d.round <= m)
            && (m == 1 || (rule.Some? && rule.value.maxApprovalRounds == m) || exists d :: d in DetailsOf(rule) && d.round == m)
  {
    LastRoundIsAsked(DetailsOf(rule));
  }

  /** A number is what a round asks for exactly if it is 1 or a count some detail of the round asks for,
      and nothing of the round asks for more. */
  lemma RequiredIsGreatest(rule: Option<Rule>, round: int, n: nat)
    ensures RoundRequired(rule, round) == n <==>
            && n >= 1
            && (n == 1 || exists d :: d in DetailsOf(rule) && d.round == round && d.requiredCount == n)
            && forall d :: d in DetailsOf(rule) && d.round == round ==> d.requiredCount <= n
  {
    RequiredIsAsked(DetailsOf(rule), round);
  }

  /** All in one round: as many approvals in all as the most demanding detail asks for. */
  lemma OneRoundAsksFor(rule: Option<Rule>, n: nat)
    requires rule.Some? ==> rule.value.maxApprovalRounds <= 1
    requires forall d :: d in DetailsOf(rule) ==> d.round == 1 && d.requiredCount <= n
    requires n == 1 || exists d :: d in DetailsOf(rule) && d.requiredCount == n
    requires n >= 1
    ensures MaxRounds(rule) == 1 && RequiredUpTo(rule, MaxRounds(rule)) == n
  {
    RequiredIsGreatest(rule, 1, n);
    MaxRoundsIsGreatest(rule, 1);
    assert RequiredUpTo(rule, 1) == RequiredUpTo(rule, 0) + n;
  }
}
