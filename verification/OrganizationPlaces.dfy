/** When an organization can be created, moved and removed, and where it then is. */
module OrganizationPlaces {
  import opened Wrappers
  import opened Organizations
  import opened OrganizationTree

  /** Every other organization is as it was. */
  ghost predicate OthersStay(orgs: Orgs, after: Orgs, id: Id) {
    forall x :: x != id ==> (x in after <==> x in orgs) && (x in orgs ==> after[x] == orgs[x])
  }

  /** The organization is active, right below the parent, everything else as it was. */
  ghost predicate Stands(orgs: Orgs, after: Orgs, id: Id, parent: Option<Id>) {
    && IsActive(after, id) && Ancestor(after, id, 1) == parent
    && (parent.None? ==> after[id].depth == 0)
    && (parent.Some? ==> parent.value in orgs && after[id].depth == orgs[parent.value].depth + 1)
    && OthersStay(orgs, after, id)
  }

  /** An organization is created below any active one, or at the top. */
  lemma CreateIff(orgs: Orgs, id: Id, parent: Option<Id>)
    requires id !in orgs
    ensures var r := Create(orgs, id, parent);
            && (r.Success? <==> parent.None? || IsActive(orgs, parent.value))
            && (r.Failure? ==> r.error.OrgParentNotFound?)
            && (r.Success? ==> Stands(orgs, r.value, id, parent))
  {
    if Create(orgs, id, parent).Success? { FirstAncestor(Create(orgs, id, parent).value, id); }
  }

  lemma FirstAncestor(orgs: Orgs, id: Id)
    requires id in orgs
    ensures Ancestor(orgs, id, 1) == orgs[id].parent
  {
    assert Ancestor(orgs, id, 0) == Some(id);
  }

  /** Among the first hundred ancestors of the parent, itself included. */
  ghost predicate FoundAbove(orgs: Orgs, id: Id, parent: Id) {
    exists k: nat :: k < MAX_DEPTH && Ancestor(orgs, parent, k) == Some(id)
  }

  lemma FoundIff(orgs: Orgs, id: Id, parent: Id)
    ensures MeetsOnWalk(orgs, id, Some(parent), 0) <==> FoundAbove(orgs, id, parent)
  {
    assert Ancestor(orgs, parent, 0) == Some(parent);
    WalkSeesHundred(orgs, id, parent, 0);
    if FoundAbove(orgs, id, parent) {
      var k: nat :| k < MAX_DEPTH && Ancestor(orgs, parent, k) == Some(id);
      WalkMeets(orgs, id, parent, k);
    }
    if MeetsOnWalk(orgs, id, Some(parent), 0) {
      var k: nat :| k >= 0 && k < MAX_DEPTH && Ancestor(orgs, parent, k) == Some(id);
    }
  }

  /** An active organization moves to the top, or below any active one that does not have it among its first
      hundred ancestors; without a new parent it stays where it is. */
  lemma UpdateIff(orgs: Orgs, id: Id, parent: Option<Option<Id>>)
    ensures var r := Update(orgs, id, parent);
            && (r.Success? <==>
                 && IsActive(orgs, id)
                 && (parent.Some? && parent.value.Some? ==>
                       IsActive(orgs, parent.value.value) && !FoundAbove(orgs, id, parent.value.value)))
            && (r == Failure(OrgParentCycle) <==>
                 && IsActive(orgs, id) && parent.Some? && parent.value.Some?
                 && IsActive(orgs, parent.value.value) && FoundAbove(orgs, id, parent.value.value))
            && (r.Success? && parent.Some? ==> Stands(orgs, r.value, id, parent.value))
            && (r.Success? && parent.None? ==> r.value == orgs)
  {
    if parent.Some? && parent.value.Some? {
      FoundIff(orgs, id, parent.value.value);
    }
    var r := Update(orgs, id, parent);
    if r.Success? && parent.Some? { FirstAncestor(r.value, id); }
  }

  /** An active organization without active ones below it, employees and shifts is removed: it stays in the
      table, inactive. */
  lemma RemoveIff(orgs: Orgs, id: Id, hasEmployees: bool, hasShifts: bool)
    ensures var r := Remove(orgs, id, hasEmployees, hasShifts);
            && (r.Success? <==>
                 && IsActive(orgs, id) && !hasEmployees && !hasShifts
                 && forall c :: IsActive(orgs, c) ==> orgs[c].parent != Some(id))
            && (r.Success? ==>
                 && id in r.value && !IsActive(r.value, id)
                 && r.value[id].parent == orgs[id].parent && OthersStay(orgs, r.value, id))
  {
  }

  // ── Where it is in the tree ──

  predicate HasNode(nodes: seq<Node>, id: Id) {
    exists k :: 0 <= k < |nodes| && nodes[k].id == id
  }

  lemma {:induction false} NodesAreKids(rows: seq<Row>, kids: seq<Row>, parent: Option<Id>)
    requires DistinctIds(rows) && Hangs(rows, parent) && |kids| <= |rows|
    requires forall row :: row in kids ==> row in rows && row.parent == parent
    ensures forall k :: 0 <= k < |kids| ==> BuildNodes(rows, kids, parent)[k].id == kids[k].id
    decreases |kids|
  {
    if kids != [] {
      NodesAreKids(rows, kids[1..], parent);
    }
  }

  /** The company's tree has an active organization right below its parent, and once in all. */
  ghost predicate InPlace(rows: seq<Row>, id: Id, parent: Option<Id>) {
    && DistinctIds(rows) && Hangs(rows, parent)
    && HasNode(BuildTree(rows, parent), id)
    && multiset(Ids(BuildTree(rows, parent)))[id] == 1
    && multiset(Ids(BuildTree(rows, None)))[id] == 1
  }

  lemma ActiveInPlace(orgs: Orgs, rows: seq<Row>, id: Id)
    requires Inv(orgs) && ListsActive(orgs, rows) && IsActive(orgs, id)
    ensures InPlace(rows, id, orgs[id].parent)
  {
    var parent, row := orgs[id].parent, RowOf(rows, id);
    var i :| 0 <= i < |rows| && rows[i] == row;
    TreeListsEveryoneOnce(orgs, rows);
    ThroughTop(orgs, rows, id);
    ThroughParent(rows, id);
    TreeCounts(rows, parent, id);
    if parent.Some? { assert Climbs(rows, id) && Under(rows, parent.value, parent.value); }
    var kids := ChildRows(rows, parent);
    NodesAreKids(rows, kids, parent);
    assert row in kids;
    var k :| 0 <= k < |kids| && kids[k] == row;
    assert BuildTree(rows, parent)[k].id == id;
  }

  lemma ThroughTop(orgs: Orgs, rows: seq<Row>, id: Id)
    requires Inv(orgs) && ListsActive(orgs, rows) && IsActive(orgs, id)
    ensures ReachesTop(rows, id)
  {
    TreeListsEveryoneOnce(orgs, rows);
    TreeCounts(rows, None, id);
  }

  /** A created organization is in the company's tree right below the parent asked for, once. */
  lemma CreatedInPlace(orgs: Orgs, id: Id, parent: Option<Id>, rows: seq<Row>)
    requires Inv(orgs) && id !in orgs && Create(orgs, id, parent).Success?
    requires ListsActive(Create(orgs, id, parent).value, rows)
    ensures InPlace(rows, id, parent)
  {
    CreateIff(orgs, id, parent);
    CreateKeepsInv(orgs, id, parent);
    FirstAncestor(Create(orgs, id, parent).value, id);
    ActiveInPlace(Create(orgs, id, parent).value, rows, id);
  }

  /** So is a moved one, in companies of at most a hundred. */
  lemma MovedInPlace(orgs: Orgs, id: Id, parent: Option<Id>, rows: seq<Row>)
    requires Inv(orgs) && |ActiveIds(orgs)| <= MAX_DEPTH && Update(orgs, id, Some(parent)).Success?
    requires ListsActive(Update(orgs, id, Some(parent)).value, rows)
    ensures InPlace(rows, id, parent)
  {
    UpdateIff(orgs, id, Some(parent));
    UpdateKeepsInv(orgs, id, Some(parent));
    FirstAncestor(Update(orgs, id, Some(parent)).value, id);
    ActiveInPlace(Update(orgs, id, Some(parent)).value, rows, id);
  }

  /** A removed one is in the tree no more, the others still are. */
  lemma RemovedFromTree(orgs: Orgs, id: Id, rows: seq<Row>)
    requires Inv(orgs) && Remove(orgs, id, false, false).Success?
    requires ListsActive(Remove(orgs, id, false, false).value, rows)
    ensures forall x :: multiset(Ids(BuildTree(rows, None)))[x] == if IsActive(orgs, x) && x != id then 1 else 0
  {
    RemoveIff(orgs, id, false, false);
    RemoveKeepsInv(orgs, id, false, false);
    TreeListsEveryoneOnce(Remove(orgs, id, false, false).value, rows);
  }
}
