/**
 * Issuing document numbers: the rule of one form, its counter, and the documents of the form.
 * Submitting issues the next number, deleting takes numbers out of use for good.
 */
module DocNumberRegister {
  import opened Wrappers
  import opened ApprovalTypes
  import opened DocNumberFormat

  datatype NumberError = DocumentNotFound | AlreadySubmitted | NumberTaken | LinkedToRequest | NotDraft

  /** An issued number: its text, and what it was rendered from. */
  datatype Number = Number(text: string, base: string, seqNo: nat, year: nat)

  datatype Paper = Paper(status: DocStatus, linked: bool, number: Option<Number>)

  datatype Rule = Rule(pattern: string, resetYearly: bool, currentSeq: nat)

  type Papers = map<Id, Paper>

  /** The register of one form; `clock` is the year of its latest submission. */
  datatype Register = Register(rule: Rule, papers: Papers, clock: nat)

  /** What a submission brings along: the date, the abbreviations of the form and of the document's
      category, and the numbers in use on other forms (numbers are unique over all documents). */
  datatype Occasion = Occasion(year: nat, month: nat, abbreviation: string, category: string, elsewhere: set<string>)

  predicate Numbered(papers: Papers, id: Id) {
    id in papers && papers[id].number.Some?
  }

  predicate IssuedSince(papers: Papers, year: nat) {
    exists id :: id in papers && papers[id].number.Some? && papers[id].number.value.year >= year
  }

  predicate TextInUse(papers: Papers, text: string) {
    exists id :: id in papers && papers[id].number.Some? && papers[id].number.value.text == text
  }

  // ── Steps of the register ──

  function NextSeq(rule: Rule, papers: Papers, year: nat): nat {
    if rule.resetYearly && rule.currentSeq > 0 && !IssuedSince(papers, year) then 1 else rule.currentSeq + 1
  }

  function NextNumber(rule: Rule, papers: Papers, at: Occasion): Number {
    var base := FixedText(rule.pattern, at.year, at.month, at.abbreviation, at.category);
    var seqNo := NextSeq(rule, papers, at.year);
    Number(RenderSeq(base, seqNo), base, seqNo, at.year)
  }

  /** The submission of a draft without a number; the unique index refuses a number in use. */
  function Submit(r: Register, id: Id, at: Occasion): Result<Register, NumberError> {
    if id !in r.papers then Failure(DocumentNotFound)
    else if !r.papers[id].status.DocDraft? then Failure(AlreadySubmitted)
    else
      var kept := r.papers[id].number;
      var number := if kept.Some? then kept.value else NextNumber(r.rule, r.papers, at);
      var rule := if kept.Some? then r.rule else r.rule.(currentSeq := number.seqNo);
      if kept.None? && (TextInUse(r.papers, number.text) || number.text in at.elsewhere) then Failure(NumberTaken)
      else
        var paper := r.papers[id].(status := DocPending, number := Some(number));
        Success(Register(rule, r.papers[id := paper], at.year))
  }

  predicate BulkDeletable(paper: Paper) {
    !paper.linked && (paper.status.DocPending? || paper.status.DocRejected?)
  }

  function Without(papers: Papers, ids: set<Id>): Papers {
    map id | id in papers && id !in ids :: papers[id]
  }

  datatype Event =
    | CreateDraft(id: Id)
    | CreateLinked(id: Id)
    | RemoveDraft(id: Id)
    | SubmitDraft(id: Id, at: Occasion)
    | Settle(id: Id, status: DocStatus)
    | ForceDelete(id: Id)
    | DeleteMany(ids: set<Id>)
    | SetRule(pattern: string, resetYearly: bool)

  /** One committed call; a call that throws leaves the register as it is. A document that belongs to
      an HR request starts pending and without a number. Settling stands for every
      later approval action, none of which returns a document to its draft. */
  function Apply(r: Register, event: Event): Register {
    match event
    case CreateDraft(id) =>
      if id in r.papers then r else r.(papers := r.papers[id := Paper(DocDraft, false, None)])
    case CreateLinked(id) =>
      if id in r.papers then r else r.(papers := r.papers[id := Paper(DocPending, true, None)])
    case RemoveDraft(id) =>
      if id in r.papers && r.papers[id].status.DocDraft? then r.(papers := Without(r.papers, {id})) else r
    case SubmitDraft(id, at) =>
      var outcome := Submit(r, id, at);
      if outcome.Success? then outcome.value else r
    case Settle(id, status) =>
      if id in r.papers && r.papers[id].status.DocPending? && !status.DocDraft?
      then r.(papers := r.papers[id := r.papers[id].(status := status)]) else r
    case ForceDelete(id) =>
      if id in r.papers && !r.papers[id].linked then r.(papers := Without(r.papers, {id})) else r
    case DeleteMany(ids) =>
      r.(papers := Without(r.papers, set id | id in ids && id in r.papers && BulkDeletable(r.papers[id])))
    case SetRule(pattern, resetYearly) =>
      r.(rule := r.rule.(pattern := pattern, resetYearly := resetYearly))
  }

  /** Submissions carry years that never go back. */
  predicate InOrder(clock: nat, events: seq<Event>)
    decreases |events|
  {
    events == [] ||
    (if events[0].SubmitDraft? then clock <= events[0].at.year && InOrder(events[0].at.year, events[1..])
     else InOrder(clock, events[1..]))
  }

  function Run(r: Register, events: seq<Event>): Register
    decreases |events|
  {
    if events == [] then r else Run(Apply(r, events[0]), events[1..])
  }

  function Empty(pattern: string, resetYearly: bool, year: nat): Register {
    Register(Rule(pattern, resetYearly, 0), map[], year)
  }

  predicate Drafted(r: Register, id: Id) {
    id in r.papers && r.papers[id].status.DocDraft?
  }

  // ── The invariant ──

  predicate FitsClock(rule: Rule, clock: nat, paper: Paper) {
    paper.number.Some? ==>
      && !paper.status.DocDraft?
      && paper.number.value.year <= clock
      && (paper.number.value.year == clock ==> paper.number.value.seqNo <= rule.currentSeq)
      && paper.number.value.text == RenderSeq(paper.number.value.base, paper.number.value.seqNo)
  }

  predicate Apart(a: Paper, b: Paper) {
    a.number.Some? && b.number.Some? && a.number.value.year == b.number.value.year ==>
      a.number.value.seqNo != b.number.value.seqNo
  }

  /** Numbers of one year have different sequence numbers, none beyond the counter in the clock's
      year. */
  ghost predicate Inv(r: Register) {
    && (forall id :: id in r.papers ==> FitsClock(r.rule, r.clock, r.papers[id]))
    && (forall i, j :: i in r.papers && j in r.papers && i != j ==> Apart(r.papers[i], r.papers[j]))
  }

  lemma NextSeqIsFresh(r: Register, year: nat, id: Id)
    requires Inv(r) && r.clock <= year && id in r.papers
    ensures r.papers[id].number.Some? ==> r.papers[id].number.value.year <= year
    ensures r.papers[id].number.Some? && r.papers[id].number.value.year == year ==>
              r.papers[id].number.value.seqNo < NextSeq(r.rule, r.papers, year)
  {
    assert FitsClock(r.rule, r.clock, r.papers[id]);
  }

  lemma DraftHasNoNumber(r: Register, id: Id)
    requires Inv(r) && id in r.papers && r.papers[id].status.DocDraft?
    ensures r.papers[id].number.None?
  {
    assert FitsClock(r.rule, r.clock, r.papers[id]);
  }

  lemma SubmitKeepsInv(r: Register, id: Id, at: Occasion)
    requires Inv(r) && r.clock <= at.year && Submit(r, id, at).Success?
    ensures Inv(Submit(r, id, at).value)
  {
    DraftHasNoNumber(r, id);
    var after := Submit(r, id, at).value;
    forall i | i in after.papers
      ensures FitsClock(after.rule, after.clock, after.papers[i])
      ensures i != id ==> Apart(after.papers[i], after.papers[id]) && Apart(after.papers[id], after.papers[i])
    {
      if i != id {
        NextSeqIsFresh(r, at.year, i);
        assert FitsClock(r.rule, r.clock, r.papers[i]);
      }
    }
    forall i, j | i in after.papers && j in after.papers && i != j
      ensures Apart(after.papers[i], after.papers[j])
    {
      if i != id && j != id { assert Apart(r.papers[i], r.papers[j]); }
    }
  }

  /** Fewer papers, or papers whose numbers are the same, keep the invariant. */
  lemma FewerKeepInv(r: Register, papers: Papers)
    requires Inv(r) && (forall id :: id in papers ==> id in r.papers && papers[id] == r.papers[id])
    ensures Inv(r.(papers := papers))
  {
    forall i, j | i in papers && j in papers && i != j ensures Apart(papers[i], papers[j]) {
      assert Apart(r.papers[i], r.papers[j]);
    }
  }

  lemma PutKeepsInv(r: Register, id: Id, paper: Paper)
    requires Inv(r) && FitsClock(r.rule, r.clock, paper)
    requires paper.number == if id in r.papers then r.papers[id].number else None
    ensures Inv(r.(papers := r.papers[id := paper]))
  {
    var papers := r.papers[id := paper];
    forall i, j | i in papers && j in papers && i != j ensures Apart(papers[i], papers[j]) {
      if i in r.papers && j in r.papers { assert Apart(r.papers[i], r.papers[j]); }
    }
  }

  lemma ApplyKeepsInv(r: Register, event: Event)
    requires Inv(r) && (event.SubmitDraft? ==> r.clock <= event.at.year)
    ensures Inv(Apply(r, event))
  {
    match event
    case CreateDraft(id) => if id !in r.papers { PutKeepsInv(r, id, Paper(DocDraft, false, None)); }
    case CreateLinked(id) => if id !in r.papers { PutKeepsInv(r, id, Paper(DocPending, true, None)); }
    case RemoveDraft(id) => FewerKeepInv(r, Without(r.papers, {id}));
    case SubmitDraft(id, at) => if Submit(r, id, at).Success? { SubmitKeepsInv(r, id, at); }
    case Settle(id, status) =>
      if id in r.papers && !status.DocDraft? {
        assert FitsClock(r.rule, r.clock, r.papers[id]);
        PutKeepsInv(r, id, r.papers[id].(status := status));
      }
    case ForceDelete(id) => FewerKeepInv(r, Without(r.papers, {id}));
    case DeleteMany(ids) =>
      FewerKeepInv(r, Without(r.papers, set id | id in ids && id in r.papers && BulkDeletable(r.papers[id])));
    case SetRule(pattern, resetYearly) =>
      forall id | id in r.papers ensures FitsClock(Apply(r, event).rule, r.clock, r.papers[id]) {
        assert FitsClock(r.rule, r.clock, r.papers[id]);
      }
  }

  lemma {:induction false} RunFromKeepsInv(r: Register, events: seq<Event>)
    requires Inv(r) && InOrder(r.clock, events)
    ensures Inv(Run(r, events))
    decreases |events|
  {
    if events != [] {
      ApplyKeepsInv(r, events[0]);
      var after := Apply(r, events[0]);
      InOrderSooner(after.clock, if events[0].SubmitDraft? then events[0].at.year else r.clock, events[1..]);
      RunFromKeepsInv(after, events[1..]);
    }
  }

  lemma {:induction false} InOrderSooner(sooner: nat, clock: nat, events: seq<Event>)
    requires sooner <= clock && InOrder(clock, events)
    ensures InOrder(sooner, events)
  {
    if events != [] && !events[0].SubmitDraft? { InOrderSooner(sooner, clock, events[1..]); }
  }

  /** Over every run, through yearly resets, deletions and changes of the rule: surviving documents
      numbered in one year have different sequence numbers, in the clock's year none beyond the
      counter, and the same text only if their pattern text differs or holds no sequence token. */
  lemma RunKeepsNumbersApart(pattern: string, resetYearly: bool, year: nat, events: seq<Event>, i: Id, j: Id)
    requires InOrder(year, events)
    requires Numbered(Run(Empty(pattern, resetYearly, year), events).papers, i)
    requires Numbered(Run(Empty(pattern, resetYearly, year), events).papers, j)
    ensures var after := Run(Empty(pattern, resetYearly, year), events);
            var a, b := after.papers[i].number.value, after.papers[j].number.value;
            && (a.year == after.clock ==> a.seqNo <= after.rule.currentSeq)
            && (i != j && a.year == b.year ==> a.seqNo != b.seqNo)
            && (i != j && a.year == b.year && a.base == b.base && HasSeq(a.base) ==> a.text != b.text)
  {
    RunFromKeepsInv(Empty(pattern, resetYearly, year), events);
    var after := Run(Empty(pattern, resetYearly, year), events);
    var a, b := after.papers[i].number.value, after.papers[j].number.value;
    assert FitsClock(after.rule, after.clock, after.papers[i]);
    assert FitsClock(after.rule, after.clock, after.papers[j]);
    if i != j { assert Apart(after.papers[i], after.papers[j]); }
    RenderInjectiveIff(a.base, a.seqNo, b.seqNo);
  }

  // ── What a call does ──

  /** A submission numbers a draft with the sequence number after the counter, or with 1 if the rule resets yearly
      and the year has no number yet, rendered from the rule's pattern; the counter follows, and nothing else
      changes. It is refused exactly if there is no such draft or the number is in use. */
  lemma SubmitIs(r: Register, id: Id, at: Occasion)
    requires Inv(r)
    ensures var result := Submit(r, id, at);
            var isFirst := r.rule.resetYearly && r.rule.currentSeq > 0 &&
                           forall other :: Numbered(r.papers, other) ==> r.papers[other].number.value.year < at.year;
            var seqNo := if isFirst then 1 else r.rule.currentSeq + 1;
            var text := RenderDocNumber(r.rule.pattern, at.year, at.month, seqNo, at.abbreviation, at.category);
            && (result.Success? <==>
                 && Drafted(r, id) && text !in at.elsewhere
                 && forall other :: Numbered(r.papers, other) ==> r.papers[other].number.value.text != text)
            && (result.Success? ==>
                 && result.value.rule == r.rule.(currentSeq := seqNo) && result.value.clock == at.year
                 && Numbered(result.value.papers, id) && result.value.papers[id].status.DocPending?
                 && result.value.papers[id].linked == r.papers[id].linked
                 && result.value.papers[id].number.value.text == text
                 && result.value.papers[id].number.value.seqNo == seqNo
                 && result.value.papers[id].number.value.year == at.year
                 && result.value.papers == r.papers[id := result.value.papers[id]])
  {
    FirstOfYearIff(r.papers, at.year);
    InUseIff(r.papers, NextNumber(r.rule, r.papers, at).text);
    if Drafted(r, id) {
      DraftHasNoNumber(r, id);
      SubmitNumbers(r, id, at);
    }
  }

  lemma InUseIff(papers: Papers, text: string)
    ensures !TextInUse(papers, text) <==> forall other :: Numbered(papers, other) ==> papers[other].number.value.text != text
  {
    if !TextInUse(papers, text) {
      forall other | Numbered(papers, other) ensures papers[other].number.value.text != text {
        assert other in papers && papers[other].number.Some?;
      }
    }
  }

  lemma SubmitNumbers(r: Register, id: Id, at: Occasion)
    requires Drafted(r, id) && r.papers[id].number.None?
    ensures var next, result := NextNumber(r.rule, r.papers, at), Submit(r, id, at);
            && (result.Success? <==> !TextInUse(r.papers, next.text) && next.text !in at.elsewhere)
            && (result.Success? ==>
                 result.value == Register(r.rule.(currentSeq := next.seqNo),
                                          r.papers[id := r.papers[id].(status := DocPending, number := Some(next))], at.year))
  {
  }

  lemma FirstOfYearIff(papers: Papers, year: nat)
    ensures !IssuedSince(papers, year) <==> forall other :: Numbered(papers, other) ==> papers[other].number.value.year < year
  {
    if !IssuedSince(papers, year) {
      forall other | Numbered(papers, other) ensures papers[other].number.value.year < year {
        assert other in papers && papers[other].number.Some?;
      }
    }
  }

  /** The next submission of the same year gets the next number. */
  lemma NumbersFollow(r: Register, id: Id, at: Occasion, id': Id, at': Occasion)
    requires Inv(r) && r.clock <= at.year && Submit(r, id, at).Success? && at'.year == at.year
    requires Submit(Submit(r, id, at).value, id', at').Success?
    ensures var one := Submit(r, id, at).value;
            var two := Submit(one, id', at').value;
            && Numbered(two.papers, id) && Numbered(two.papers, id')
            && two.papers[id'].number.value.seqNo == two.papers[id].number.value.seqNo + 1
  {
    SubmitIs(r, id, at);
    SubmitKeepsInv(r, id, at);
    var one := Submit(r, id, at).value;
    SubmitIs(one, id', at');
    assert Numbered(one.papers, id) && one.papers[id].number.value.year == at.year;
    assert id' != id;
  }

  /** The call takes the paper out: a draft removed, or a paper of no request deleted, by hand or, when pending or
      rejected, among others. */
  predicate TakesOut(event: Event, id: Id, paper: Paper) {
    match event
    case RemoveDraft(x) => x == id && paper.status.DocDraft?
    case ForceDelete(x) => x == id && !paper.linked
    case DeleteMany(ids) => id in ids && !paper.linked && (paper.status.DocPending? || paper.status.DocRejected?)
    case _ => false
  }

  /** A paper stays until a call takes it out, and keeps its number as long as it stays; new papers have none. */
  lemma PapersKeepNumbers(r: Register, event: Event, id: Id)
    ensures var after := Apply(r, event).papers;
            && (id in r.papers ==> (id in after <==> !TakesOut(event, id, r.papers[id])))
            && (id in r.papers && id in after && r.papers[id].number.Some? ==> after[id].number == r.papers[id].number)
            && (id in r.papers && id in after ==> after[id].linked == r.papers[id].linked)
            && (id !in r.papers && id in after ==> after[id].number.None? && (event.CreateDraft? || event.CreateLinked?))
  {
  }

  /** The other calls: only a change of the rule changes the rule, and keeps the counter; settling gives a pending
      paper its status, and no other call changes the status of a paper that stays. */
  lemma OtherCallsLeave(r: Register, event: Event, id: Id)
    requires !event.SubmitDraft?
    ensures var after := Apply(r, event);
            && after.clock == r.clock
            && after.rule == (if event.SetRule? then Rule(event.pattern, event.resetYearly, r.rule.currentSeq) else r.rule)
            && (id in r.papers && id in after.papers ==>
                 after.papers[id].status ==
                   if event.Settle? && event.id == id && r.papers[id].status.DocPending? && !event.status.DocDraft?
                   then event.status else r.papers[id].status)
            && (event == CreateDraft(id) && id !in r.papers ==>
                 id in after.papers && after.papers[id] == Paper(DocDraft, false, None))
            && (event == CreateLinked(id) && id !in r.papers ==>
                 id in after.papers && after.papers[id] == Paper(DocPending, true, None))
  {
  }

  // ── When a number is refused ──

  /** A document of the same text is in the way: any, if the text has no sequence token, and else one of
      an earlier year with the sequence number that comes next. */
  predicate SameTextBlocks(r: Register, at: Occasion, other: Id) {
    && Numbered(r.papers, other)
    && r.papers[other].number.value.base == NextNumber(r.rule, r.papers, at).base
    && (HasSeq(r.papers[other].number.value.base) ==>
          && r.papers[other].number.value.year < at.year
          && r.papers[other].number.value.seqNo == NextSeq(r.rule, r.papers, at.year))
  }

  predicate OtherTextBlocks(r: Register, at: Occasion, other: Id) {
    && Numbered(r.papers, other)
    && r.papers[other].number.value.base != NextNumber(r.rule, r.papers, at).base
    && r.papers[other].number.value.text == NextNumber(r.rule, r.papers, at).text
  }

  lemma BlocksIff(r: Register, at: Occasion, other: Id)
    requires Inv(r) && r.clock <= at.year && Numbered(r.papers, other)
    ensures r.papers[other].number.value.text == NextNumber(r.rule, r.papers, at).text <==>
            SameTextBlocks(r, at, other) || OtherTextBlocks(r, at, other)
  {
    var next, earlier := NextNumber(r.rule, r.papers, at), r.papers[other].number.value;
    NextSeqIsFresh(r, at.year, other);
    assert FitsClock(r.rule, r.clock, r.papers[other]);
    if earlier.base == next.base { RenderInjectiveIff(next.base, next.seqNo, earlier.seqNo); }
  }

  /** A draft's submission is refused exactly when its number is in use on another form, a surviving
      document of the same text is in the way, or a number rendered from another text happens to read
      the same. */
  lemma RefusedIff(r: Register, id: Id, at: Occasion)
    requires Inv(r) && r.clock <= at.year && Drafted(r, id)
    ensures Submit(r, id, at) == Failure(NumberTaken) <==>
            || NextNumber(r.rule, r.papers, at).text in at.elsewhere
            || exists other :: other in r.papers && (SameTextBlocks(r, at, other) || OtherTextBlocks(r, at, other))
  {
    DraftHasNoNumber(r, id);
    var text := NextNumber(r.rule, r.papers, at).text;
    forall other | Numbered(r.papers, other)
      ensures r.papers[other].number.value.text == text <==> SameTextBlocks(r, at, other) || OtherTextBlocks(r, at, other)
    {
      BlocksIff(r, at, other);
    }
  }

  /** All documents of the form were numbered from the same text as the next one. */
  ghost predicate OneText(r: Register, at: Occasion) {
    forall other :: Numbered(r.papers, other) ==>
      r.papers[other].number.value.base == NextNumber(r.rule, r.papers, at).base
  }

  /** With one text for all, and the number free on other forms, exactly an earlier year's survivor with
      the next sequence number refuses. */
  lemma RefusedByEarlierYearIff(r: Register, id: Id, at: Occasion)
    requires Inv(r) && r.clock <= at.year && HasSeq(r.rule.pattern) && Drafted(r, id)
    requires OneText(r, at) && NextNumber(r.rule, r.papers, at).text !in at.elsewhere
    ensures Submit(r, id, at) == Failure(NumberTaken) <==>
            exists other :: (
              && other in r.papers && Numbered(r.papers, other)
              && r.papers[other].number.value.year < at.year
              && r.papers[other].number.value.seqNo == NextSeq(r.rule, r.papers, at.year))
  {
    RefusedIff(r, id, at);
    PatternKeepsSeq(r.rule.pattern, at.year, at.month, at.abbreviation, at.category);
    forall other | other in r.papers
      ensures !OtherTextBlocks(r, at, other)
    {
    }
  }

  // ── A year that stays blocked ──

  /** The year has no number yet, and the first number of an earlier year reads like its first. */
  predicate Blocked(r: Register, year: nat, other: Id, base: string) {
    && r.rule.resetYearly && r.rule.currentSeq > 0 && !IssuedSince(r.papers, year)
    && Numbered(r.papers, other)
    && r.papers[other].number.value.seqNo == 1 && r.papers[other].number.value.base == base
  }

  /** A call that leaves the rule and that document alone, and submits from the same text. */
  predicate Spares(r: Register, event: Event, year: nat, other: Id, base: string) {
    match event
    case SetRule(_, _) => false
    case ForceDelete(id) => id != other
    case DeleteMany(ids) => other !in ids
    case SubmitDraft(_, at) =>
      at.year >= year && FixedText(r.rule.pattern, at.year, at.month, at.abbreviation, at.category) == base
    case _ => true
  }

  lemma BlockedRefuses(r: Register, year: nat, other: Id, base: string, id: Id, at: Occasion)
    requires Inv(r) && Blocked(r, year, other, base) && Drafted(r, id) && at.year >= year
    requires FixedText(r.rule.pattern, at.year, at.month, at.abbreviation, at.category) == base
    ensures Submit(r, id, at) == Failure(NumberTaken)
  {
    DraftHasNoNumber(r, id);
    assert FitsClock(r.rule, r.clock, r.papers[other]);
    assert r.papers[other].number.value.text == NextNumber(r.rule, r.papers, at).text;
  }

  lemma SparedStaysBlocked(r: Register, year: nat, other: Id, base: string, event: Event)
    requires Inv(r) && Blocked(r, year, other, base) && Spares(r, event, year, other, base)
    ensures Blocked(Apply(r, event), year, other, base) && Apply(r, event).rule == r.rule
    ensures event.SubmitDraft? ==> Submit(r, event.id, event.at).Failure?
  {
    assert FitsClock(r.rule, r.clock, r.papers[other]);
    if event.SubmitDraft? && Drafted(r, event.id) { BlockedRefuses(r, year, other, base, event.id, event.at); }
  }

  predicate AllSpare(r: Register, events: seq<Event>, year: nat, other: Id, base: string) {
    forall k :: 0 <= k < |events| ==> Spares(r, events[k], year, other, base)
  }

  /** So with a yearly reset and a text that is the same in both years, every submission of the year is
      refused, however many and whatever else happens, until the earlier document or the rule goes. */
  lemma {:induction false} StaysBlocked(r: Register, year: nat, other: Id, base: string, events: seq<Event>, id: Id, at: Occasion)
    requires Inv(r) && InOrder(r.clock, events) && Blocked(r, year, other, base) && AllSpare(r, events, year, other, base)
    requires at.year >= year && FixedText(r.rule.pattern, at.year, at.month, at.abbreviation, at.category) == base
    ensures !IssuedSince(Run(r, events).papers, year)
    ensures Drafted(Run(r, events), id) ==> Submit(Run(r, events), id, at) == Failure(NumberTaken)
    decreases |events|
  {
    if events == [] {
      if Drafted(r, id) { BlockedRefuses(r, year, other, base, id, at); }
    } else {
      var after := Apply(r, events[0]);
      SparedStaysBlocked(r, year, other, base, events[0]);
      ApplyKeepsInv(r, events[0]);
      InOrderSooner(after.clock, if events[0].SubmitDraft? then events[0].at.year else r.clock, events[1..]);
      StaysBlocked(after, year, other, base, events[1..], id, at);
    }
  }

  lemma SecondInside(s: string, token: string)
    requires |token| >= 2
    ensures StartsWith(s, token) ==> token[1] in s
  {
    if StartsWith(s, token) { assert s[1] == s[..|token|][1]; }
  }

  lemma {:induction false} ReplaceAbsent(s: string, token: string, text: string)
    requires |token| >= 2 && token[1] !in s
    ensures ReplaceAll(s, token, text) == s
  {
    if s != [] {
      SecondInside(s, token);
      assert s == [s[0]] + s[1..];
      ReplaceAbsent(s[1..], token, text);
    }
  }

  /** A text without date and abbreviation tokens stays as it is. */
  lemma NothingToFill(pattern: string, year: nat, month: nat, abbreviation: string, category: string)
    requires 'Y' !in pattern && 'M' !in pattern && 'C' !in pattern && 'A' !in pattern
    ensures FixedText(pattern, year, month, abbreviation, category) == pattern
  {
    ReplaceAbsent(pattern, "{YYYY}", Digits(year));
    ReplaceAbsent(pattern, "{YY}", LastTwo(Digits(year)));
    ReplaceAbsent(pattern, "{MM}", PadStart(Digits(month), 2));
    ReplaceAbsent(pattern, "{CATEGORY}", category);
    ReplaceAbsent(pattern, "{ABBR}", abbreviation);
  }

  /** It happens to every such pattern: number one document in a year, and the first submission of any
      later year is refused. */
  lemma ResetCollides(pattern: string, first: Occasion, next: Occasion)
    requires FixedText(pattern, first.year, first.month, first.abbreviation, first.category) ==
             FixedText(pattern, next.year, next.month, next.abbreviation, next.category)
    requires first.elsewhere == {} && first.year < next.year
    ensures var events := [CreateDraft(1), SubmitDraft(1, first), CreateDraft(2)];
            && InOrder(first.year, events)
            && Submit(Run(Empty(pattern, true, first.year), events), 2, next) == Failure(NumberTaken)
  {
    var events := [CreateDraft(1), SubmitDraft(1, first), CreateDraft(2)];
    var base := FixedText(pattern, first.year, first.month, first.abbreviation, first.category);
    var r0 := Empty(pattern, true, first.year);
    ThreeEvents(r0, events);
    InOrderThree(first.year, events);
    FirstNumber(Apply(r0, events[0]), 1, first, base);
    RunFromKeepsInv(r0, events);
    BlockedRefuses(Run(r0, events), next.year, 1, base, 2, next);
  }

  /** In particular to {SEQ} alone. */
  lemma PlainSequenceCollides()
    ensures var first, next := Occasion(2025, 3, "", "", {}), Occasion(2026, 1, "", "", {});
            var events := [CreateDraft(1), SubmitDraft(1, first), CreateDraft(2)];
            Submit(Run(Empty("{SEQ}", true, 2025), events), 2, next) == Failure(NumberTaken)
  {
    NothingToFill("{SEQ}", 2025, 3, "", "");
    NothingToFill("{SEQ}", 2026, 1, "", "");
    ResetCollides("{SEQ}", Occasion(2025, 3, "", "", {}), Occasion(2026, 1, "", "", {}));
  }

  lemma ThreeEvents(r: Register, events: seq<Event>)
    requires |events| == 3
    ensures Run(r, events) == Apply(Apply(Apply(r, events[0]), events[1]), events[2])
  {
    var two, one := events[1..], events[1..][1..];
    assert two[0] == events[1] && one[0] == events[2] && one[1..] == [];
    assert Run(r, events) == Run(Apply(r, events[0]), two);
    assert Run(Apply(r, events[0]), two) == Run(Apply(Apply(r, events[0]), two[0]), one);
  }

  lemma InOrderThree(clock: nat, events: seq<Event>)
    requires |events| == 3 && !events[0].SubmitDraft? && events[1].SubmitDraft? && !events[2].SubmitDraft?
    requires clock <= events[1].at.year
    ensures InOrder(clock, events)
  {
    var two, one := events[1..], events[1..][1..];
    assert two[0] == events[1] && one[0] == events[2] && one[1..] == [];
    assert InOrder(events[1].at.year, one);
    assert InOrder(clock, two);
  }

  lemma FirstNumber(r: Register, id: Id, at: Occasion, base: string)
    requires r.papers == map[id := Paper(DocDraft, false, None)] && r.rule.currentSeq == 0 && at.elsewhere == {}
    requires FixedText(r.rule.pattern, at.year, at.month, at.abbreviation, at.category) == base
    ensures Submit(r, id, at).Success?
    ensures Submit(r, id, at).value ==
            Register(r.rule.(currentSeq := 1), map[id := Paper(DocPending, false, Some(Number(RenderSeq(base, 1), base, 1, at.year)))], at.year)
  {
  }

  /** A rule that never resets: all surviving sequence numbers differ, whatever their years. */
  ghost predicate Climbing(r: Register) {
    && !r.rule.resetYearly
    && (forall id :: Numbered(r.papers, id) ==> r.papers[id].number.value.seqNo <= r.rule.currentSeq)
    && (forall i, j :: Numbered(r.papers, i) && Numbered(r.papers, j) && i != j ==>
          r.papers[i].number.value.seqNo != r.papers[j].number.value.seqNo)
  }

  predicate NeverResets(event: Event) {
    event.SetRule? ==> !event.resetYearly
  }

  lemma ClimbingSubmit(r: Register, id: Id, at: Occasion)
    requires Inv(r) && Climbing(r) && Submit(r, id, at).Success?
    ensures Climbing(Submit(r, id, at).value)
  {
    DraftHasNoNumber(r, id);
    var after := Submit(r, id, at).value;
    forall i | Numbered(after.papers, i) ensures after.papers[i].number.value.seqNo <= after.rule.currentSeq {
      if i != id { assert Numbered(r.papers, i); }
    }
    forall i, j | Numbered(after.papers, i) && Numbered(after.papers, j) && i != j
      ensures after.papers[i].number.value.seqNo != after.papers[j].number.value.seqNo
    {
      if i != id { assert Numbered(r.papers, i); }
      if j != id { assert Numbered(r.papers, j); }
    }
  }

  lemma ClimbingPapers(r: Register, papers: Papers)
    requires Climbing(r)
    requires forall id :: Numbered(papers, id) ==> Numbered(r.papers, id) && papers[id].number == r.papers[id].number
    ensures Climbing(r.(papers := papers))
  {
  }

  lemma ClimbingApply(r: Register, event: Event)
    requires Inv(r) && Climbing(r) && NeverResets(event)
    ensures Climbing(Apply(r, event))
  {
    match event
    case SubmitDraft(id, at) => if Submit(r, id, at).Success? { ClimbingSubmit(r, id, at); }
    case SetRule(pattern, resetYearly) =>
    case _ => ClimbingPapers(r, Apply(r, event).papers);
  }

  /** Over every run without yearly reset, the next number of a pattern with a sequence token is never
      in use by a document of the same text: only other texts or other forms can refuse it. */
  lemma {:induction false} ClimbingRun(r: Register, events: seq<Event>, at: Occasion, other: Id)
    requires Inv(r) && Climbing(r) && InOrder(r.clock, events)
    requires forall k :: 0 <= k < |events| ==> NeverResets(events[k])
    requires var after := Run(r, events);
             HasSeq(after.rule.pattern) && Numbered(after.papers, other) &&
             after.papers[other].number.value.base == NextNumber(after.rule, after.papers, at).base
    ensures var after := Run(r, events);
            after.papers[other].number.value.text != NextNumber(after.rule, after.papers, at).text
    decreases |events|
  {
    if events == [] {
      var next, earlier := NextNumber(r.rule, r.papers, at), r.papers[other].number.value;
      assert FitsClock(r.rule, r.clock, r.papers[other]);
      PatternKeepsSeq(r.rule.pattern, at.year, at.month, at.abbreviation, at.category);
      RenderInjectiveIff(next.base, next.seqNo, earlier.seqNo);
    } else {
      var after := Apply(r, events[0]);
      assert NeverResets(events[0]);
      ApplyKeepsInv(r, events[0]);
      ClimbingApply(r, events[0]);
      InOrderSooner(after.clock, if events[0].SubmitDraft? then events[0].at.year else r.clock, events[1..]);
      ClimbingRun(after, events[1..], at, other);
    }
  }

  // ── Forms without a rule ──

  /** Without a rule the number counts the numbers of the year already in use. */
  function FallbackText(year: nat, count: nat): string {
    "DOC-" + (Digits(year) + ("-" + PadStart(Digits(count + 1), 4)))
  }

  predicate FallbackRefused(used: set<nat>, year: nat) {
    exists s :: s in used && s > 0 && FallbackText(year, s - 1) == FallbackText(year, |used|)
  }

  lemma FallbackTail(year: nat, count: nat)
    ensures |FallbackText(year, count)| >= |Digits(year)| + 5
    ensures FallbackText(year, count)[|Digits(year)| + 5..] == PadStart(Digits(count + 1), 4)
  {
    var head, tail := "DOC-" + (Digits(year) + "-"), PadStart(Digits(count + 1), 4);
    assert FallbackText(year, count) == head + tail;
  }

  lemma FallbackInjective(year: nat, a: nat, b: nat)
    requires FallbackText(year, a) == FallbackText(year, b)
    ensures a == b
  {
    FallbackTail(year, a);
    FallbackTail(year, b);
    TokenInjective(Some(4), a + 1, b + 1);
  }

  /** With the numbers `used` of the year in use, the fallback number is refused exactly when the one
      after their count is among them. */
  lemma FallbackRefusedIff(used: set<nat>, year: nat)
    requires 0 !in used
    ensures FallbackRefused(used, year) <==> |used| + 1 in used
  {
    if FallbackRefused(used, year) {
      var s :| s in used && s > 0 && FallbackText(year, s - 1) == FallbackText(year, |used|);
      FallbackInjective(year, s - 1, |used|);
    }
    if |used| + 1 in used {
      assert FallbackText(year, (|used| + 1) - 1) == FallbackText(year, |used|);
    }
  }

  function UpTo(n: nat): (s: set<nat>)
    ensures forall k :: k in s <==> 1 <= k <= n
    ensures |s| == n
  {
    if n == 0 then {} else UpTo(n - 1) + {n}
  }

  /** After the numbers 1 to n are issued and one of them is deleted, the next submission is refused
      unless it was the last. */
  lemma FallbackAfterDelete(n: nat, deleted: nat, year: nat)
    requires 1 <= deleted <= n
    ensures FallbackRefused(UpTo(n) - {deleted}, year) <==> deleted != n
  {
    FallbackRefusedIff(UpTo(n) - {deleted}, year);
  }

  /** The year's numbers after a submission: a refused one leaves them as they were. */
  function FallbackSubmit(used: set<nat>, year: nat): set<nat> {
    if FallbackRefused(used, year) then used else used + {|used| + 1}
  }

  /** The year's numbers after so many submissions. */
  function FallbackTries(used: set<nat>, year: nat, tries: nat): set<nat> {
    if tries == 0 then used else FallbackSubmit(FallbackTries(used, year, tries - 1), year)
  }

  /** Submissions alone number the documents 1, 2, 3 and so on, none refused. */
  lemma {:induction false} FallbackCountsUp(year: nat, tries: nat)
    ensures FallbackTries({}, year, tries) == UpTo(tries) && !FallbackRefused(UpTo(tries), year)
  {
    FallbackRefusedIff(UpTo(tries), year);
    if tries > 0 {
      FallbackCountsUp(year, tries - 1);
    }
  }

  lemma {:induction false} RefusedStaysRefused(used: set<nat>, year: nat, tries: nat)
    requires FallbackRefused(used, year)
    ensures FallbackTries(used, year, tries) == used
  {
    assert FallbackSubmit(used, year) == used;
    if tries > 0 {
      RefusedStaysRefused(used, year, tries - 1);
    }
  }

  /** But once a number other than the last was deleted, every submission of the year is refused, however
      often it is tried, since the count no longer moves. */
  lemma FallbackStaysBlocked(n: nat, deleted: nat, year: nat, tries: nat)
    requires 1 <= deleted < n
    ensures FallbackRefused(FallbackTries(UpTo(n) - {deleted}, year, tries), year)
  {
    FallbackAfterDelete(n, deleted, year);
    RefusedStaysRefused(UpTo(n) - {deleted}, year, tries);
  }
}
