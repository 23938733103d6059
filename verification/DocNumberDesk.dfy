/** The register of document numbers as the services change it, row by row. */
module DocNumberDesk {
  import opened Wrappers
  import opened ApprovalTypes
  import opened DocNumberFormat
  import opened DocNumberRegister

  datatype SkipReason = SkipNotFound | SkipLinkedToRequest | SkipStatusNotDeletable

  function SkipOf(papers: Papers, id: Id): Option<SkipReason> {
    if id !in papers then Some(SkipNotFound)
    else if papers[id].linked then Some(SkipLinkedToRequest)
    else if !(papers[id].status.DocPending? || papers[id].status.DocRejected?) then Some(SkipStatusNotDeletable)
    else None
  }

  /** Each id once, at its first occurrence. */
  function Unique(ids: seq<Id>): (r: seq<Id>)
    ensures forall id :: id in r <==> id in ids
    ensures forall i, j :: 0 <= i < j < |r| ==> r[i] != r[j]
  {
    if ids == [] then []
    else
      var before, last := Unique(ids[..|ids| - 1]), ids[|ids| - 1];
      assert ids == ids[..|ids| - 1] + [last];
      if last in before then before else before + [last]
  }

  function Deletables(papers: Papers, ids: seq<Id>): (r: seq<Id>)
    ensures forall id :: id in r <==> id in ids && SkipOf(papers, id).None?
  {
    if ids == [] then []
    else
      var last := ids[|ids| - 1];
      assert ids == ids[..|ids| - 1] + [last];
      Deletables(papers, ids[..|ids| - 1]) + (if SkipOf(papers, last).None? then [last] else [])
  }

  function Skips(papers: Papers, ids: seq<Id>): (r: seq<(Id, SkipReason)>)
    ensures forall id, reason :: (id, reason) in r <==> id in ids && SkipOf(papers, id) == Some(reason)
  {
    if ids == [] then []
    else
      var last := ids[|ids| - 1];
      assert ids == ids[..|ids| - 1] + [last];
      Skips(papers, ids[..|ids| - 1]) + (if SkipOf(papers, last).Some? then [(last, SkipOf(papers, last).value)] else [])
  }

  lemma {:induction false} EveryIdOnce(papers: Papers, ids: seq<Id>)
    ensures |Deletables(papers, ids)| + |Skips(papers, ids)| == |ids|
  {
    if ids != [] { EveryIdOnce(papers, ids[..|ids| - 1]); }
  }

  class NumberDesk {
    var pattern: string
    var resetYearly: bool
    var currentSeq: nat
    var papers: Papers
    var clock: nat

    function State(): Register
      reads this
    {
      Register(Rule(pattern, resetYearly, currentSeq), papers, clock)
    }

    constructor (pattern: string, resetYearly: bool, year: nat)
      ensures State() == Empty(pattern, resetYearly, year) && Inv(State())
    {
      this.pattern, this.resetYearly, currentSeq := pattern, resetYearly, 0;
      papers, clock := map[], year;
    }

    /** Resets the counter when the year has no number yet, advances it and renders the number. */
    method IssueDocNumber(at: Occasion) returns (text: string)
      modifies this`currentSeq
      ensures text == RenderDocNumber(pattern, at.year, at.month, currentSeq, at.abbreviation, at.category)
      ensures currentSeq == NextSeq(old(State()).rule, papers, at.year)
    {
      if resetYearly && currentSeq > 0 {
        var issuedThisYear := IssuedSince(papers, at.year);
        if !issuedThisYear {
          currentSeq := 0;
        }
      }
      currentSeq := currentSeq + 1;
      text := RenderDocNumber(pattern, at.year, at.month, currentSeq, at.abbreviation, at.category);
    }

    /** The transaction of a submission: a number in use rolls the counter back. */
    method SubmitDraft(id: Id, at: Occasion) returns (outcome: Outcome<NumberError>)
      requires Inv(State()) && clock <= at.year
      modifies this
      ensures Inv(State())
      ensures outcome.Pass? <==> Submit(old(State()), id, at).Success?
      ensures outcome.Pass? ==> State() == Submit(old(State()), id, at).value
      ensures outcome.Fail? ==> State() == old(State()) && outcome.error == Submit(old(State()), id, at).error
    {
      ghost var before := State();
      if id !in papers { return Fail(DocumentNotFound); }
      if !papers[id].status.DocDraft? { return Fail(AlreadySubmitted); }
      DraftHasNoNumber(before, id);
      var savedSeq := currentSeq;
      var text := IssueDocNumber(at);
      var base := FixedText(pattern, at.year, at.month, at.abbreviation, at.category);
      if TextInUse(papers, text) || text in at.elsewhere {
        currentSeq := savedSeq;
        return Fail(NumberTaken);
      }
      papers := papers[id := papers[id].(status := DocPending, number := Some(Number(text, base, currentSeq, at.year)))];
      clock := at.year;
      SubmitKeepsInv(before, id, at);
      outcome := Pass;
    }

    /** The submission tries once more when its number is in use. With nothing committed in between, the
        second try renders the same number and is refused alike. */
    method SubmitWithRetry(id: Id, at: Occasion) returns (outcome: Outcome<NumberError>)
      requires Inv(State()) && clock <= at.year
      modifies this
      ensures Inv(State())
      ensures outcome.Pass? <==> Submit(old(State()), id, at).Success?
      ensures outcome.Pass? ==> State() == Submit(old(State()), id, at).value
      ensures outcome.Fail? ==> State() == old(State()) && outcome.error == Submit(old(State()), id, at).error
    {
      outcome := SubmitDraft(id, at);
      if outcome.Fail? && outcome.error.NumberTaken? {
        outcome := SubmitDraft(id, at);
      }
    }

    /** Deletes the deletable ids in one statement and reports the others. */
    method BulkForceDelete(ids: seq<Id>) returns (deletable: seq<Id>, skipped: seq<(Id, SkipReason)>)
      requires Inv(State())
      modifies this`papers
      ensures Inv(State())
      ensures deletable == Deletables(old(papers), Unique(ids)) && skipped == Skips(old(papers), Unique(ids))
      ensures State() == Apply(old(State()), DeleteMany(IdSet(ids)))
      ensures |deletable| + |skipped| == |IdSet(ids)|
      ensures forall id :: id in old(papers) && id !in papers <==>
        && id in ids && id in old(papers) && !old(papers)[id].linked
        && (old(papers)[id].status.DocPending? || old(papers)[id].status.DocRejected?)
    {
      var uniqueIds := UniqueIds(ids);
      deletable, skipped := SortOut(papers, uniqueIds);
      AllAccounted(papers, ids);
      DeletesThose(State(), ids);
      papers := Without(papers, IdSet(deletable));
    }
  }

  function IdSet(ids: seq<Id>): set<Id> {
    set id | id in ids
  }

  lemma DeletesThose(r: Register, ids: seq<Id>)
    requires Inv(r)
    ensures var after := r.(papers := Without(r.papers, IdSet(Deletables(r.papers, Unique(ids)))));
            after == Apply(r, DeleteMany(IdSet(ids))) && Inv(after)
  {
    assert IdSet(Deletables(r.papers, Unique(ids))) ==
      set id | id in IdSet(ids) && id in r.papers && BulkDeletable(r.papers[id]);
    ApplyKeepsInv(r, DeleteMany(IdSet(ids)));
  }

  /** Every distinct id is deleted or skipped, once. */
  lemma AllAccounted(papers: Papers, ids: seq<Id>)
    ensures |Deletables(papers, Unique(ids))| + |Skips(papers, Unique(ids))| == |IdSet(ids)|
  {
    EveryIdOnce(papers, Unique(ids));
    UniqueCount(Unique(ids));
    assert IdSet(Unique(ids)) == IdSet(ids);
  }

  /** The loop that sorts ids into those to delete and those to skip. */
  method SortOut(papers: Papers, ids: seq<Id>) returns (deletable: seq<Id>, skipped: seq<(Id, SkipReason)>)
    ensures deletable == Deletables(papers, ids) && skipped == Skips(papers, ids)
  {
    deletable, skipped := [], [];
    for k := 0 to |ids|
      invariant deletable == Deletables(papers, ids[..k])
      invariant skipped == Skips(papers, ids[..k])
    {
      var id := ids[k];
      assert ids[..k + 1][..k] == ids[..k];
      if id !in papers {
        skipped := skipped + [(id, SkipNotFound)];
      } else if papers[id].linked {
        skipped := skipped + [(id, SkipLinkedToRequest)];
      } else if !(papers[id].status.DocPending? || papers[id].status.DocRejected?) {
        skipped := skipped + [(id, SkipStatusNotDeletable)];
      } else {
        deletable := deletable + [id];
      }
    }
    assert ids[..|ids|] == ids;
  }

  method UniqueIds(ids: seq<Id>) returns (r: seq<Id>)
    ensures r == Unique(ids)
  {
    r := [];
    for k := 0 to |ids|
      invariant r == Unique(ids[..k])
    {
      assert ids[..k + 1][..k] == ids[..k];
      if ids[k] !in r { r := r + [ids[k]]; }
    }
    assert ids[..|ids|] == ids;
  }

  lemma {:induction false} UniqueCount(r: seq<Id>)
    requires forall i, j :: 0 <= i < j < |r| ==> r[i] != r[j]
    ensures |IdSet(r)| == |r|
  {
    if r != [] {
      var before, last := r[..|r| - 1], r[|r| - 1];
      UniqueCount(before);
      assert last !in before;
      assert IdSet(r) == IdSet(before) + {last};
    }
  }
}
