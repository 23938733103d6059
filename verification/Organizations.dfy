/** The department hierarchy: parent pointers, the bounded cycle check, and soft deletion. */
module Organizations {
  import opened Wrappers

  type Id = nat

  datatype Org = Org(parent: Option<Id>, depth: int, isActive: bool)

  type Orgs = map<Id, Org>

  datatype OrgError = OrgNotFound | OrgParentNotFound | OrgParentCycle
    | OrgHasChildren | OrgHasEmployees | OrgHasShifts

  const MAX_DEPTH := 100

  predicate IsActive(orgs: Orgs, id: Id) {
    id in orgs && orgs[id].isActive
  }

  // ── Ancestors ──

  /** The `k`-th ancestor, the organization itself for k = 0. */
  function Ancestor(orgs: Orgs, id: Id, k: nat): Option<Id> {
    if k == 0 then Some(id)
    else match Ancestor(orgs, id, k - 1)
      case None => None
      case Some(p) => if p in orgs then orgs[p].parent else None
  }

  /** Parents exist and have a smaller rank. */
  ghost predicate Ranked(orgs: Orgs, rank: map<Id, nat>) {
    forall id :: id in orgs ==> (
      && id in rank
      && (orgs[id].parent.Some? ==> (
           && orgs[id].parent.value in orgs
           && orgs[id].parent.value in rank
           && rank[orgs[id].parent.value] < rank[id])))
  }

  /** The parent graph has no cycle. */
  ghost predicate Forest(orgs: Orgs) {
    exists rank :: Ranked(orgs, rank)
  }

  /** Active organizations have active parents. */
  ghost predicate ActiveParents(orgs: Orgs) {
    forall id :: IsActive(orgs, id) && orgs[id].parent.Some? ==> IsActive(orgs, orgs[id].parent.value)
  }

  ghost predicate Inv(orgs: Orgs) {
    Forest(orgs) && ActiveParents(orgs)
  }

  function ActiveIds(orgs: Orgs): set<Id> {
    set id | id in orgs && orgs[id].isActive
  }

  lemma {:induction false} AncestorRank(orgs: Orgs, rank: map<Id, nat>, id: Id, k: nat)
    requires Ranked(orgs, rank) && id in orgs && Ancestor(orgs, id, k).Some?
    ensures var a := Ancestor(orgs, id, k).value; a in orgs && rank[a] + k <= rank[id]
  {
    if k > 0 {
      AncestorRank(orgs, rank, id, k - 1);
    }
  }

  /** In a forest nobody is an ancestor of itself. */
  lemma NoOwnAncestor(orgs: Orgs, id: Id, k: nat)
    requires Forest(orgs) && id in orgs && k > 0
    ensures Ancestor(orgs, id, k) != Some(id)
  {
    var rank :| Ranked(orgs, rank);
    if Ancestor(orgs, id, k).Some? {
      AncestorRank(orgs, rank, id, k);
    }
  }

  lemma {:induction false} AncestorsActive(orgs: Orgs, id: Id, k: nat)
    requires ActiveParents(orgs) && IsActive(orgs, id) && Ancestor(orgs, id, k).Some?
    ensures IsActive(orgs, Ancestor(orgs, id, k).value)
  {
    if k > 0 {
      AncestorsActive(orgs, id, k - 1);
    }
  }

  /** The first ancestors up to the `k`-th. */
  ghost function AncestorSet(orgs: Orgs, id: Id, k: nat): set<Id> {
    (if k == 0 then {} else AncestorSet(orgs, id, k - 1)) +
    (if Ancestor(orgs, id, k).Some? then {Ancestor(orgs, id, k).value} else {})
  }

  /** A chain of ancestors never repeats, so it is no longer than there are active organizations. */
  lemma {:induction false} ChainIsShort(orgs: Orgs, rank: map<Id, nat>, id: Id, k: nat)
    requires Ranked(orgs, rank) && ActiveParents(orgs) && IsActive(orgs, id)
    requires Ancestor(orgs, id, k).Some?
    ensures |AncestorSet(orgs, id, k)| == k + 1 && AncestorSet(orgs, id, k) <= ActiveIds(orgs)
    ensures forall a :: a in AncestorSet(orgs, id, k) ==> a in orgs && rank[a] >= rank[Ancestor(orgs, id, k).value]
    ensures Ancestor(orgs, id, k).value in orgs
  {
    AncestorRank(orgs, rank, id, k);
    AncestorsActive(orgs, id, k);
    if k > 0 {
      ChainIsShort(orgs, rank, id, k - 1);
      AncestorRank(orgs, rank, id, k - 1);
      assert AncestorSet(orgs, id, k) == AncestorSet(orgs, id, k - 1) + {Ancestor(orgs, id, k).value};
    }
  }

  lemma SubsetSize(a: set<Id>, b: set<Id>)
    requires a <= b
    ensures |a| <= |b|
  {
    assert b == a + (b - a);
  }

  // ── The cycle check ──

  /** What the walk finds from `cursor` on, after `steps` steps. */
  function MeetsOnWalk(orgs: Orgs, id: Id, cursor: Option<Id>, steps: nat): bool
    decreases MAX_DEPTH - steps
  {
    if cursor.None? || steps >= MAX_DEPTH then false
    else if cursor.value == id then true
    else MeetsOnWalk(orgs, id, if cursor.value in orgs then orgs[cursor.value].parent else None, steps + 1)
  }

  /** The walk meets `id` iff it is one of the first hundred ancestors, the parent included. */
  lemma {:induction false} WalkSeesHundred(orgs: Orgs, id: Id, parent: Id, steps: nat)
    requires steps <= MAX_DEPTH
    ensures MeetsOnWalk(orgs, id, Ancestor(orgs, parent, steps), steps) <==>
            exists k: nat :: k >= steps && k < MAX_DEPTH && Ancestor(orgs, parent, k) == Some(id)
    decreases MAX_DEPTH - steps
  {
    if steps < MAX_DEPTH {
      WalkSeesHundred(orgs, id, parent, steps + 1);
      if Ancestor(orgs, parent, steps).None? {
        NoneStays(orgs, parent, steps);
      }
    }
  }

  /** The walk from a parent meets each of its first hundred ancestors. */
  lemma WalkMeets(orgs: Orgs, id: Id, parent: Id, k: nat)
    requires k < MAX_DEPTH && Ancestor(orgs, parent, k) == Some(id)
    ensures MeetsOnWalk(orgs, id, Some(parent), 0)
  {
    WalkSeesHundred(orgs, id, parent, 0);
    assert Ancestor(orgs, parent, 0) == Some(parent);
  }

  lemma {:induction false} NoneStays(orgs: Orgs, id: Id, k: nat)
    requires Ancestor(orgs, id, k).None?
    ensures forall j: nat :: j >= k ==> Ancestor(orgs, id, j).None?
  {
    forall j: nat | j >= k ensures Ancestor(orgs, id, j).None? {
      NoneStaysAt(orgs, id, k, j);
    }
  }

  lemma {:induction false} NoneStaysAt(orgs: Orgs, id: Id, k: nat, j: nat)
    requires Ancestor(orgs, id, k).None? && j >= k
    ensures Ancestor(orgs, id, j).None?
    decreases j
  {
    if j > k {
      NoneStaysAt(orgs, id, k, j - 1);
    }
  }

  // ── Operations ──

  function Create(orgs: Orgs, id: Id, parent: Option<Id>): Result<Orgs, OrgError> {
    if parent.Some? && !IsActive(orgs, parent.value) then Failure(OrgParentNotFound) else
    var depth := if parent.Some? then orgs[parent.value].depth + 1 else 0;
    Success(orgs[id := Org(parent, depth, true)])
  }

  function SetParent(orgs: Orgs, id: Id, parent: Option<Id>, depth: int): Orgs
    requires id in orgs
  {
    orgs[id := orgs[id].(parent := parent, depth := depth)]
  }

  /** `parent` None leaves the parent alone, Some(None) moves to the top. */
  function Update(orgs: Orgs, id: Id, parent: Option<Option<Id>>): Result<Orgs, OrgError> {
    if !IsActive(orgs, id) then Failure(OrgNotFound) else
    if parent.None? then Success(orgs)
    else match parent.value
      case None => Success(SetParent(orgs, id, None, 0))
      case Some(p) =>
        :- Need(IsActive(orgs, p), OrgParentNotFound);
        :- Need(!MeetsOnWalk(orgs, id, Some(p), 0), OrgParentCycle);
        Success(SetParent(orgs, id, Some(p), orgs[p].depth + 1))
  }

  /** Soft deletion; employees and shifts of the organization are counted elsewhere. */
  function Remove(orgs: Orgs, id: Id, hasEmployees: bool, hasShifts: bool): Result<Orgs, OrgError> {
    if !IsActive(orgs, id) then Failure(OrgNotFound) else
    :- Need(forall c :: c in orgs && orgs[c].isActive ==> orgs[c].parent != Some(id), OrgHasChildren);
    :- Need(!hasEmployees, OrgHasEmployees);
    :- Need(!hasShifts, OrgHasShifts);
    Success(orgs[id := orgs[id].(isActive := false)])
  }

  // ── When a move keeps the forest ──

  ghost predicate Below(orgs: Orgs, x: Id, id: Id) {
    exists k: nat :: Ancestor(orgs, x, k) == Some(id)
  }

  lemma {:induction false} AncestorOfParent(orgs: Orgs, x: Id, k: nat)
    requires x in orgs && orgs[x].parent.Some?
    ensures Ancestor(orgs, x, k + 1) == Ancestor(orgs, orgs[x].parent.value, k)
  {
    if k > 0 {
      AncestorOfParent(orgs, x, k - 1);
    }
  }

  lemma {:induction false} AncestorOfRoot(orgs: Orgs, x: Id, k: nat)
    requires x in orgs && orgs[x].parent.None? && k > 0
    ensures Ancestor(orgs, x, k).None?
  {
    if k > 1 {
      AncestorOfRoot(orgs, x, k - 1);
    }
  }

  /** Apart from `id` itself, an organization is below `id` iff its parent is. */
  lemma BelowThroughParent(orgs: Orgs, x: Id, id: Id)
    requires x in orgs && x != id
    ensures Below(orgs, x, id) <==> orgs[x].parent.Some? && Below(orgs, orgs[x].parent.value, id)
  {
    if Below(orgs, x, id) {
      var k: nat :| Ancestor(orgs, x, k) == Some(id);
      if orgs[x].parent.Some? {
        AncestorOfParent(orgs, x, k - 1);
      } else {
        AncestorOfRoot(orgs, x, k);
      }
    }
    if orgs[x].parent.Some? && Below(orgs, orgs[x].parent.value, id) {
      var k: nat :| Ancestor(orgs, orgs[x].parent.value, k) == Some(id);
      AncestorOfParent(orgs, x, k);
    }
  }

  /** Hanging `id` under something not below it keeps the forest. */
  lemma MoveKeepsForest(orgs: Orgs, id: Id, p: Id, depth: int)
    requires Forest(orgs) && id in orgs && p in orgs && !Below(orgs, p, id)
    ensures Forest(SetParent(orgs, id, Some(p), depth))
  {
    var rank :| Ranked(orgs, rank);
    var after := SetParent(orgs, id, Some(p), depth);
    ghost var rank' := map x | x in orgs :: if Below(orgs, x, id) then rank[x] + rank[p] + 1 else rank[x];
    assert Ancestor(orgs, id, 0) == Some(id);
    forall x | x in after
      ensures after[x].parent.Some? ==> after[x].parent.value in after && rank'[after[x].parent.value] < rank'[x]
    {
      if x != id {
        BelowThroughParent(orgs, x, id);
      }
    }
    assert Ranked(after, rank');
  }

  lemma {:induction false} ChainUnchanged(orgs: Orgs, after: Orgs, id: Id, p: Id, k: nat)
    requires id in orgs && after.Keys == orgs.Keys
    requires forall x :: x in orgs && x != id ==> after[x].parent == orgs[x].parent
    requires forall j :: 0 <= j < k ==> Ancestor(orgs, p, j) != Some(id)
    ensures Ancestor(after, p, k) == Ancestor(orgs, p, k)
  {
    if k > 0 {
      ChainUnchanged(orgs, after, id, p, k - 1);
    }
  }

  lemma FirstMeeting(orgs: Orgs, p: Id, id: Id, k: nat) returns (first: nat)
    requires Ancestor(orgs, p, k) == Some(id)
    ensures Ancestor(orgs, p, first) == Some(id)
    ensures forall j :: 0 <= j < first ==> Ancestor(orgs, p, j) != Some(id)
  {
    if j: nat :| 0 <= j < k && Ancestor(orgs, p, j) == Some(id) {
      first := FirstMeeting(orgs, p, id, j);
    } else {
      first := k;
    }
  }

  /** Hanging `id` under something below it makes a cycle. */
  lemma MoveBelowMakesCycle(orgs: Orgs, id: Id, p: Id, depth: int)
    requires id in orgs && p in orgs && Below(orgs, p, id)
    ensures !Forest(SetParent(orgs, id, Some(p), depth))
  {
    var after := SetParent(orgs, id, Some(p), depth);
    var some: nat :| Ancestor(orgs, p, some) == Some(id);
    var k := FirstMeeting(orgs, p, id, some);
    ChainUnchanged(orgs, after, id, p, k);
    AncestorOfParent(after, id, k);
    if Forest(after) {
      NoOwnAncestor(after, id, k + 1);
    }
  }

  /** A move that the check lets through keeps the forest iff the moved organization is not beyond
      the hundred ancestors the walk looks at. */
  lemma AcceptedMoveKeepsForestIff(orgs: Orgs, id: Id, p: Id)
    requires Inv(orgs) && Update(orgs, id, Some(Some(p))).Success?
    ensures Forest(Update(orgs, id, Some(Some(p))).value) <==>
            forall k: nat :: k >= MAX_DEPTH ==> Ancestor(orgs, p, k) != Some(id)
  {
    assert Update(orgs, id, Some(Some(p))).value == SetParent(orgs, id, Some(p), orgs[p].depth + 1);
    if Below(orgs, p, id) {
      MoveBelowMakesCycle(orgs, id, p, orgs[p].depth + 1);
      var k: nat :| Ancestor(orgs, p, k) == Some(id);
      AcceptedIsBeyond(orgs, id, p, k);
    } else {
      MoveKeepsForest(orgs, id, p, orgs[p].depth + 1);
      forall k: nat ensures Ancestor(orgs, p, k) != Some(id) { NotBelow(orgs, p, id, k); }
    }
  }

  lemma NotBelow(orgs: Orgs, p: Id, id: Id, k: nat)
    requires !Below(orgs, p, id)
    ensures Ancestor(orgs, p, k) != Some(id)
  {
  }

  lemma AcceptedIsBeyond(orgs: Orgs, id: Id, p: Id, k: nat)
    requires Update(orgs, id, Some(Some(p))).Success? && Ancestor(orgs, p, k) == Some(id)
    ensures k >= MAX_DEPTH
  {
    if k < MAX_DEPTH { WalkMeets(orgs, id, p, k); }
  }

  /** With at most a hundred active organizations the check refuses exactly the moves that would
      make a cycle. */
  lemma CheckIsExact(orgs: Orgs, id: Id, p: Id)
    requires Inv(orgs) && |ActiveIds(orgs)| <= MAX_DEPTH && IsActive(orgs, id) && IsActive(orgs, p)
    ensures Update(orgs, id, Some(Some(p))).Success? <==>
            Forest(SetParent(orgs, id, Some(p), orgs[p].depth + 1))
  {
    WalkSeesHundred(orgs, id, p, 0);
    assert Ancestor(orgs, p, 0) == Some(p);
    if Below(orgs, p, id) {
      var k: nat :| Ancestor(orgs, p, k) == Some(id);
      var rank :| Ranked(orgs, rank);
      ChainIsShort(orgs, rank, p, k);
      SubsetSize(AncestorSet(orgs, p, k), ActiveIds(orgs));
      MoveBelowMakesCycle(orgs, id, p, orgs[p].depth + 1);
    } else {
      MoveKeepsForest(orgs, id, p, orgs[p].depth + 1);
    }
  }

  lemma CreateKeepsInv(orgs: Orgs, id: Id, parent: Option<Id>)
    requires Inv(orgs) && id !in orgs && Create(orgs, id, parent).Success?
    ensures Inv(Create(orgs, id, parent).value)
  {
    var rank :| Ranked(orgs, rank);
    var after := Create(orgs, id, parent).value;
    assert Ranked(after, rank[id := if parent.Some? then rank[parent.value] + 1 else 0]);
  }

  lemma UpdateKeepsInv(orgs: Orgs, id: Id, parent: Option<Option<Id>>)
    requires Inv(orgs) && |ActiveIds(orgs)| <= MAX_DEPTH && Update(orgs, id, parent).Success?
    ensures Inv(Update(orgs, id, parent).value)
  {
    if parent.Some? {
      if parent.value.Some? {
        CheckIsExact(orgs, id, parent.value.value);
      } else {
        var rank :| Ranked(orgs, rank);
        assert Ranked(SetParent(orgs, id, None, 0), rank);
      }
    }
  }

  lemma RemoveKeepsInv(orgs: Orgs, id: Id, hasEmployees: bool, hasShifts: bool)
    requires Inv(orgs) && Remove(orgs, id, hasEmployees, hasShifts).Success?
    ensures Inv(Remove(orgs, id, hasEmployees, hasShifts).value)
  {
    var rank :| Ranked(orgs, rank);
    assert Ranked(Remove(orgs, id, hasEmployees, hasShifts).value, rank);
  }

  // ── Runs ──

  datatype Operation =
    | OpCreate(createdUnder: Option<Id>)
    | OpUpdate(id: Id, parent: Option<Option<Id>>)
    | OpRemove(id: Id, hasEmployees: bool, hasShifts: bool)

  /** A new organization gets the next id. */
  function Perform(orgs: Orgs, next: Id, op: Operation): Result<Orgs, OrgError> {
    match op
    case OpCreate(parent) => Create(orgs, next, parent)
    case OpUpdate(id, parent) => Update(orgs, id, parent)
    case OpRemove(id, e, s) => Remove(orgs, id, e, s)
  }

  /** The organizations and the next id after any calls; a call that throws changes nothing. */
  function Run(ops: seq<Operation>): (Orgs, Id) {
    if ops == [] then (map[], 0) else
    var (orgs, next) := Run(ops[..|ops| - 1]);
    match Perform(orgs, next, ops[|ops| - 1])
    case Success(after) => (after, if ops[|ops| - 1].OpCreate? then next + 1 else next)
    case Failure(_) => (orgs, next)
  }

  /** As long as a company never has more than a hundred active organizations, whatever is created,
      moved and removed leaves a forest in which active organizations have active parents. */
  lemma {:induction false} RunKeepsInv(ops: seq<Operation>)
    requires forall n :: 0 <= n <= |ops| ==> |ActiveIds(Run(ops[..n]).0)| <= MAX_DEPTH
    ensures Inv(Run(ops).0) && forall id :: id in Run(ops).0 ==> id < Run(ops).1
    decreases |ops|
  {
    if ops == [] {
      assert Ranked(map[], map[]);
    } else {
      var most, op := ops[..|ops| - 1], ops[|ops| - 1];
      assert forall n :: 0 <= n <= |most| ==> most[..n] == ops[..n];
      RunKeepsInv(most);
      var (orgs, next) := Run(most);
      assert |ActiveIds(Run(ops[..|most|]).0)| <= MAX_DEPTH;
      if Perform(orgs, next, op).Success? {
        match op
        case OpCreate(parent) => CreateKeepsInv(orgs, next, parent);
        case OpUpdate(id, parent) => UpdateKeepsInv(orgs, id, parent);
        case OpRemove(id, e, s) => RemoveKeepsInv(orgs, id, e, s);
      }
    }
  }

  // ── A hundred and one organizations in a row ──

  /** Organizations 0 to n - 1, each under the one before. */
  function ChainOf(n: nat): (orgs: Orgs)
    ensures forall i: Id :: i in orgs <==> i < n
    ensures forall i: Id :: i in orgs ==> orgs[i] == Org(if i == 0 then None else Some(i - 1), i, true)
    ensures |orgs| == n
  {
    if n == 0 then map[]
    else ChainOf(n - 1)[n - 1 := Org(if n == 1 then None else Some(n - 2), n - 1, true)]
  }

  ghost function IdentityBelow(n: nat): (rank: map<Id, nat>)
    ensures forall i: Id :: i in rank <==> i < n
    ensures forall i: Id :: i in rank ==> rank[i] == i
  {
    if n == 0 then map[] else IdentityBelow(n - 1)[n - 1 := n - 1]
  }

  lemma {:induction false} ChainAncestor(n: nat, k: nat)
    requires k < n
    ensures Ancestor(ChainOf(n), n - 1, k) == Some(n - 1 - k)
  {
    if k > 0 {
      ChainAncestor(n, k - 1);
    }
  }

  lemma ChainIsSound(n: nat)
    ensures Inv(ChainOf(n)) && |ActiveIds(ChainOf(n))| == n
  {
    var orgs := ChainOf(n);
    assert Ranked(orgs, IdentityBelow(n));
    assert ActiveIds(orgs) == orgs.Keys;
  }

  /** With one organization more than the walk looks at, the check lets a cycle through. */
  lemma HundredAndOneIsTooMany()
    ensures var orgs := ChainOf(MAX_DEPTH + 1);
            var moved := Update(orgs, 0, Some(Some(MAX_DEPTH)));
            Inv(orgs) && |ActiveIds(orgs)| == MAX_DEPTH + 1 && moved.Success? && !Forest(moved.value)
  {
    var orgs := ChainOf(MAX_DEPTH + 1);
    ChainIsSound(MAX_DEPTH + 1);
    WalkSeesHundred(orgs, 0, MAX_DEPTH, 0);
    forall k: nat | k <= MAX_DEPTH ensures Ancestor(orgs, MAX_DEPTH, k) == Some(MAX_DEPTH - k) {
      ChainAncestor(MAX_DEPTH + 1, k);
    }
    assert Ancestor(orgs, MAX_DEPTH, MAX_DEPTH) == Some(0);
    MoveBelowMakesCycle(orgs, 0, MAX_DEPTH, orgs[MAX_DEPTH].depth + 1);
  }

  // ── The service ──

  class OrganizationService {
    var orgs: Orgs
    var next: Id

    constructor ()
      ensures orgs == map[] && next == 0
    {
      orgs, next := map[], 0;
    }

    /** Climb from the new parent, at most a hundred steps, looking for the organization. */
    method AssertNoParentCycle(id: Id, parentId: Id) returns (r: Outcome<OrgError>)
      ensures r == if MeetsOnWalk(orgs, id, Some(parentId), 0) then Fail(OrgParentCycle) else Pass
    {
      var cursor, steps := Some(parentId), 0;
      while cursor.Some? && steps < MAX_DEPTH
        invariant 0 <= steps <= MAX_DEPTH
        invariant MeetsOnWalk(orgs, id, Some(parentId), 0) <==> MeetsOnWalk(orgs, id, cursor, steps)
        decreases MAX_DEPTH - steps
      {
        if cursor.value == id { return Fail(OrgParentCycle); }
        cursor := if cursor.value in orgs then orgs[cursor.value].parent else None;
        steps := steps + 1;
      }
      return Pass;
    }

    method CreateOrg(parent: Option<Id>) returns (r: Outcome<OrgError>)
      modifies this
      ensures match Create(old(orgs), old(next), parent)
              case Success(after) => r.Pass? && orgs == after && next == old(next) + 1
              case Failure(e) => r == Fail(e) && orgs == old(orgs) && next == old(next)
    {
      var depth := 0;
      if parent.Some? {
        if parent.value !in orgs || !orgs[parent.value].isActive { return Fail(OrgParentNotFound); }
        depth := orgs[parent.value].depth + 1;
      }
      orgs := orgs[next := Org(parent, depth, true)];
      next := next + 1;
      r := Pass;
    }

    method UpdateOrg(id: Id, parent: Option<Option<Id>>) returns (r: Outcome<OrgError>)
      modifies this
      ensures match Update(old(orgs), id, parent)
              case Success(after) => r.Pass? && orgs == after
              case Failure(e) => r == Fail(e) && orgs == old(orgs)
    {
      if id !in orgs || !orgs[id].isActive { return Fail(OrgNotFound); }
      if parent.Some? {
        var depth := 0;
        if parent.value.Some? {
          var p := parent.value.value;
          if p !in orgs || !orgs[p].isActive { return Fail(OrgParentNotFound); }
          var checked := AssertNoParentCycle(id, p);
          if checked.Fail? { return checked; }
          depth := orgs[p].depth + 1;
        }
        orgs := orgs[id := orgs[id].(parent := parent.value, depth := depth)];
      }
      r := Pass;
    }

    method RemoveOrg(id: Id, hasEmployees: bool, hasShifts: bool) returns (r: Outcome<OrgError>)
      modifies this
      ensures match Remove(old(orgs), id, hasEmployees, hasShifts)
              case Success(after) => r.Pass? && orgs == after
              case Failure(e) => r == Fail(e) && orgs == old(orgs)
    {
      if id !in orgs || !orgs[id].isActive { return Fail(OrgNotFound); }
      if exists c :: c in orgs && orgs[c].isActive && orgs[c].parent == Some(id) { return Fail(OrgHasChildren); }
      if hasEmployees { return Fail(OrgHasEmployees); }
      if hasShifts { return Fail(OrgHasShifts); }
      orgs := orgs[id := orgs[id].(isActive := false)];
      r := Pass;
    }
  }
}
