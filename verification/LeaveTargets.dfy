/** What a rule grants an employee: which of its items applies, and for how many months. */
module LeaveTargets {
  import opened Wrappers
  import opened LeaveLedger
  import opened LeaveAccrual

  // ── The item that applies ──

  /** The full months of service an item asks for. */
  function MonthsAsked(item: RuleItem): nat {
    if item.basis.Yearly? then (if item.tenureYears.Some? then item.tenureYears.value * 12 else 0)
    else if item.tenureMonths.Some? then item.tenureMonths.value else 0
  }

  /** Of the items the service reaches, the first of those that ask for the most. */
  ghost predicate Applies(items: seq<RuleItem>, tenure: nat, k: nat) {
    && k < |items| && MonthsAsked(items[k]) <= tenure
    && (forall j :: 0 <= j < |items| && MonthsAsked(items[j]) <= tenure ==> MonthsAsked(items[j]) <= MonthsAsked(items[k]))
    && (forall j :: 0 <= j < k && MonthsAsked(items[j]) <= tenure ==> MonthsAsked(items[j]) < MonthsAsked(items[k]))
  }

  ghost predicate NoneReached(items: seq<RuleItem>, tenure: nat) {
    forall j :: 0 <= j < |items| ==> MonthsAsked(items[j]) > tenure
  }

  lemma KeepsApplying(items: seq<RuleItem>, last: RuleItem, tenure: nat, k: nat)
    requires Applies(items, tenure, k)
    requires MonthsAsked(last) <= tenure ==> MonthsAsked(last) <= MonthsAsked(items[k])
    ensures Applies(items + [last], tenure, k)
  {
  }

  lemma AppliesLast(items: seq<RuleItem>, last: RuleItem, tenure: nat)
    requires MonthsAsked(last) <= tenure
    requires forall j :: 0 <= j < |items| && MonthsAsked(items[j]) <= tenure ==> MonthsAsked(items[j]) < MonthsAsked(last)
    ensures Applies(items + [last], tenure, |items|)
  {
  }

  lemma {:induction false} TierApplies(items: seq<RuleItem>, tenure: nat) returns (k: nat)
    ensures match HighestTier(items, tenure)
            case None => NoneReached(items, tenure)
            case Some(item) => Applies(items, tenure, k) && items[k] == item
  {
    k := 0;
    if items != [] {
      var n := |items| - 1;
      var most, last := items[..n], items[n];
      assert items == most + [last];
      k := TierApplies(most, tenure);
      var before := HighestTier(most, tenure);
      if before.Some? && (MonthsAsked(last) > tenure || MonthsAsked(last) <= MonthsAsked(most[k])) {
        KeepsApplying(most, last, tenure, k);
      } else if MonthsAsked(last) <= tenure {
        AppliesLast(most, last, tenure);
        k := n;
      }
    }
  }

  /** An item that applies decides what is granted, and the expiry date: its days, for each month that counts if
      it grants monthly; nothing is granted exactly if no item is reached, or no month counts yet. */
  lemma GrantIs(items: seq<RuleItem>, e: Employee, year: int, reference: Date, expiry: ExpiryOf)
    ensures var r, months := AccrualFor(items, e, year, reference, expiry), MonthlyCount(e.joinedAt, year, reference);
            && (NoneReached(items, e.tenureMonths) ==> r.None?)
            && (forall k: nat :: Applies(items, e.tenureMonths, k) ==>
                 && (r.None? <==> items[k].basis.Monthly? && months == 0)
                 && (r.Some? ==>
                      && r.value.targetDays == items[k].accrualDays * (if items[k].basis.Monthly? then months else 1)
                      && r.value.expiresAt == expiry(items[k], e.joinedAt, year)))
            && (NoneReached(items, e.tenureMonths) || exists k: nat :: Applies(items, e.tenureMonths, k))
  {
    var k := TierApplies(items, e.tenureMonths);
    forall j: nat | Applies(items, e.tenureMonths, j) ensures HighestTier(items, e.tenureMonths).Some? && j == k {
      if HighestTier(items, e.tenureMonths).Some? { OneApplies(items, e.tenureMonths, j, k); }
    }
  }

  lemma OneApplies(items: seq<RuleItem>, tenure: nat, j: nat, k: nat)
    requires Applies(items, tenure, j) && Applies(items, tenure, k)
    ensures j == k
  {
  }

  // ── The months that count ──

  /** The same day of the month, so many months later. */
  function MonthsAfter(d: Date, months: nat): Date {
    Date(d.year + (d.month - 1 + months) / 12, (d.month - 1 + months) % 12 + 1, d.day)
  }

  /** That day has come. */
  predicate Passed(start: Date, months: nat, reference: Date) {
    !reference.Before(MonthsAfter(start, months))
  }

  /** Where counting starts: the first of the year, or the joining date if that is later. */
  function CountsFrom(joinedAt: Date, year: int): Date {
    if joinedAt.Before(Date(year, 1, 1)) then Date(year, 1, 1) else joinedAt
  }

  lemma MonthsPassed(start: Date, reference: Date, m: nat)
    requires ValidDate(start) && ValidDate(reference)
    ensures Passed(start, m, reference) <==> m <= FullMonths(start, reference)
  {
  }

  /** As many months count as days of the month have come since counting started, at most twelve. */
  lemma CountIsMonthsPassed(joinedAt: Date, year: int, reference: Date)
    requires ValidDate(joinedAt) && ValidDate(reference)
    ensures var start, n := CountsFrom(joinedAt, year), MonthlyCount(joinedAt, year, reference);
            && n <= 12
            && (forall m: nat :: 1 <= m <= 12 ==> (m <= n <==> Passed(start, m, reference)))
  {
    var start := CountsFrom(joinedAt, year);
    forall m: nat | 1 <= m <= 12 ensures m <= MonthlyCount(joinedAt, year, reference) <==> Passed(start, m, reference) {
      MonthsPassed(start, reference, m);
      MonthsLater(start, m);
    }
  }

  lemma MonthsLater(start: Date, m: nat)
    requires ValidDate(start) && m >= 1
    ensures start.Before(MonthsAfter(start, m))
  {
  }
}
