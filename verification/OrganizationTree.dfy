/**
 * The recursive tree builder over any listing with distinct ids: from the top it always ends, and it
 * lists exactly the organizations whose chain of parents reaches the top.
 */
module OrganizationTree {
  import opened Wrappers
  import opened Organizations

  /** A listed organization. */
  datatype Row = Row(id: Id, parent: Option<Id>)

  datatype Node = Node(id: Id, children: seq<Node>)

  ghost predicate DistinctIds(rows: seq<Row>) {
    forall i, j :: 0 <= i < j < |rows| ==> rows[i].id != rows[j].id
  }

  predicate HasRow(rows: seq<Row>, id: Id) {
    exists i :: 0 <= i < |rows| && rows[i].id == id
  }

  function RowOf(rows: seq<Row>, id: Id): (row: Row)
    requires HasRow(rows, id)
    ensures row in rows && row.id == id
  {
    if rows[0].id == id then rows[0] else
      assert HasRow(rows[1..], id) by {
        var i :| 0 <= i < |rows| && rows[i].id == id;
        assert rows[1..][i - 1].id == id;
      }
      RowOf(rows[1..], id)
  }

  /** Rows with the same id are the same row. */
  lemma SameRow(rows: seq<Row>, a: Row, b: Row)
    requires DistinctIds(rows) && a in rows && b in rows && a.id == b.id
    ensures a == b
  {
  }

  // ── Reaching the top ──

  /** `id` is listed, and the chain of its parents reaches the top after `k` steps. */
  predicate AtDepth(rows: seq<Row>, id: Id, k: nat)
    decreases k
  {
    HasRow(rows, id) &&
    match RowOf(rows, id).parent
    case None => k == 0
    case Some(p) => k > 0 && AtDepth(rows, p, k - 1)
  }

  ghost predicate ReachesTop(rows: seq<Row>, id: Id) {
    exists k :: AtDepth(rows, id, k)
  }

  lemma {:induction false} OneDepth(rows: seq<Row>, id: Id, j: nat, k: nat)
    requires AtDepth(rows, id, j) && AtDepth(rows, id, k)
    ensures j == k
    decreases j
  {
    if RowOf(rows, id).parent.Some? {
      OneDepth(rows, RowOf(rows, id).parent.value, j - 1, k - 1);
    }
  }

  ghost function Depth(rows: seq<Row>, id: Id): (k: nat)
    requires ReachesTop(rows, id)
    ensures AtDepth(rows, id, k)
  {
    var k :| AtDepth(rows, id, k);
    k
  }

  /** A listed organization reaches the top iff it is at the top or its parent reaches it, one step less. */
  lemma ThroughParent(rows: seq<Row>, id: Id)
    requires HasRow(rows, id)
    ensures var parent := RowOf(rows, id).parent;
            && (ReachesTop(rows, id) <==> parent.None? || ReachesTop(rows, parent.value))
            && (ReachesTop(rows, id) ==> Depth(rows, id) == if parent.None? then 0 else Depth(rows, parent.value) + 1)
  {
    match RowOf(rows, id).parent
    case None =>
      assert AtDepth(rows, id, 0);
    case Some(p) =>
      if ReachesTop(rows, p) {
        assert AtDepth(rows, id, Depth(rows, p) + 1);
      }
      if ReachesTop(rows, id) {
        assert AtDepth(rows, p, Depth(rows, id) - 1);
        OneDepth(rows, p, Depth(rows, id) - 1, Depth(rows, p));
      }
  }

  /** The greatest depth among the first `n` rows. */
  ghost function Deepest(rows: seq<Row>, n: nat): (m: nat)
    requires n <= |rows|
    ensures forall i :: 0 <= i < n && ReachesTop(rows, rows[i].id) ==> Depth(rows, rows[i].id) <= m
  {
    if n == 0 then 0 else
    var m := Deepest(rows, n - 1);
    if ReachesTop(rows, rows[n - 1].id) && Depth(rows, rows[n - 1].id) > m then Depth(rows, rows[n - 1].id) else m
  }

  /** The top, or an organization that reaches it. */
  ghost predicate Hangs(rows: seq<Row>, parent: Option<Id>) {
    parent.Some? ==> ReachesTop(rows, parent.value)
  }

  /** How far the recursion can still go below `parent`. */
  ghost function Room(rows: seq<Row>, parent: Option<Id>): int
    requires Hangs(rows, parent)
  {
    match parent
    case None => Deepest(rows, |rows|) + 1
    case Some(p) => Deepest(rows, |rows|) - Depth(rows, p)
  }

  lemma RoomBelow(rows: seq<Row>, kid: Row)
    requires DistinctIds(rows) && kid in rows && Hangs(rows, kid.parent)
    ensures ReachesTop(rows, kid.id) && 0 <= Room(rows, Some(kid.id)) < Room(rows, kid.parent)
    ensures RowOf(rows, kid.id) == kid
  {
    var i :| 0 <= i < |rows| && rows[i] == kid;
    assert HasRow(rows, kid.id);
    SameRow(rows, kid, RowOf(rows, kid.id));
    ThroughParent(rows, kid.id);
  }

  // ── The builder ──

  function ChildRows(rows: seq<Row>, parent: Option<Id>): (r: seq<Row>)
    ensures |r| <= |rows|
    ensures forall row :: row in r <==> row in rows && row.parent == parent
  {
    if rows == [] then []
    else
      (if rows[0].parent == parent then [rows[0]] else []) + ChildRows(rows[1..], parent)
  }

  /** It is called at the top, and by itself for listed organizations only. */
  function BuildTree(rows: seq<Row>, parent: Option<Id>): seq<Node>
    requires DistinctIds(rows) && Hangs(rows, parent)
    decreases Room(rows, parent), |rows| + 1
  {
    BuildNodes(rows, ChildRows(rows, parent), parent)
  }

  function BuildNodes(rows: seq<Row>, kids: seq<Row>, parent: Option<Id>): (r: seq<Node>)
    requires DistinctIds(rows) && Hangs(rows, parent) && |kids| <= |rows|
    requires forall row :: row in kids ==> row in rows && row.parent == parent
    ensures |r| == |kids|
    decreases Room(rows, parent), |kids|
  {
    if kids == [] then [] else
    assert kids[0] in kids;
    RoomBelow(rows, kids[0]);
    [Node(kids[0].id, BuildTree(rows, Some(kids[0].id)))] + BuildNodes(rows, kids[1..], parent)
  }

  // ── Everyone exactly once ──

  /** The ids of a forest, parents before children. */
  function Ids(nodes: seq<Node>): seq<Id> {
    if nodes == [] then []
    else [nodes[0].id] + Ids(nodes[0].children) + Ids(nodes[1..])
  }

  /** `c` is `id` or one of its ancestors. */
  ghost predicate Under(rows: seq<Row>, id: Id, c: Id)
    requires ReachesTop(rows, id)
    decreases Depth(rows, id)
  {
    id == c ||
    (RowOf(rows, id).parent.Some? && Climbs(rows, id) && Under(rows, RowOf(rows, id).parent.value, c))
  }

  /** The parent reaches the top too, one step less. */
  ghost predicate Climbs(rows: seq<Row>, id: Id)
    requires ReachesTop(rows, id) && RowOf(rows, id).parent.Some?
    ensures Climbs(rows, id)
    ensures var q := RowOf(rows, id).parent.value; ReachesTop(rows, q) && Depth(rows, id) == Depth(rows, q) + 1
  {
    ThroughParent(rows, id);
    ReachesTop(rows, RowOf(rows, id).parent.value)
  }

  /** Strictly below `parent`; whoever reaches the top is below it. */
  ghost predicate StrictlyUnder(rows: seq<Row>, id: Id, parent: Option<Id>)
    requires ReachesTop(rows, id)
  {
    parent.None? ||
    (RowOf(rows, id).parent.Some? && Climbs(rows, id) &&
     Under(rows, RowOf(rows, id).parent.value, parent.value))
  }

  lemma {:induction false} UnderIsDeeper(rows: seq<Row>, id: Id, c: Id)
    requires ReachesTop(rows, id) && Under(rows, id, c)
    ensures ReachesTop(rows, c) && Depth(rows, c) <= Depth(rows, id)
    decreases Depth(rows, id)
  {
    if id != c {
      assert Climbs(rows, id);
      UnderIsDeeper(rows, RowOf(rows, id).parent.value, c);
    }
  }

  lemma NotUnderItself(rows: seq<Row>, id: Id)
    requires ReachesTop(rows, id)
    ensures !StrictlyUnder(rows, id, Some(id))
  {
    if StrictlyUnder(rows, id, Some(id)) {
      assert Climbs(rows, id);
      UnderIsDeeper(rows, RowOf(rows, id).parent.value, id);
    }
  }

  /** How many of `kids` are `id` or an ancestor of it. */
  ghost function Above(rows: seq<Row>, kids: seq<Row>, id: Id): nat
    requires ReachesTop(rows, id)
  {
    if kids == [] then 0
    else (if Under(rows, id, kids[0].id) then 1 else 0) + Above(rows, kids[1..], id)
  }

  lemma {:induction false} AboveSame(rows: seq<Row>, kids: seq<Row>, id: Id, q: Id)
    requires ReachesTop(rows, id) && ReachesTop(rows, q)
    requires forall k :: k in kids ==> (Under(rows, id, k.id) <==> Under(rows, q, k.id))
    ensures Above(rows, kids, id) == Above(rows, kids, q)
    decreases |kids|
  {
    if kids != [] {
      AboveSame(rows, kids[1..], id, q);
    }
  }

  /** If only `id` itself among distinct `kids` is above `id`, it counts once or not at all. */
  lemma {:induction false} AboveOnlySelf(rows: seq<Row>, kids: seq<Row>, id: Id)
    requires ReachesTop(rows, id)
    requires DistinctIds(kids)
    requires forall k :: k in kids ==> (Under(rows, id, k.id) <==> k.id == id)
    ensures Above(rows, kids, id) == if HasRow(kids, id) then 1 else 0
    decreases |kids|
  {
    if kids != [] {
      var rest := kids[1..];
      AboveOnlySelf(rows, rest, id);
      assert HasRow(kids, id) <==> kids[0].id == id || HasRow(rest, id) by {
        if HasRow(kids, id) {
          var i :| 0 <= i < |kids| && kids[i].id == id;
          if i > 0 {
            assert rest[i - 1].id == id;
          }
        }
        if HasRow(rest, id) {
          var i :| 0 <= i < |rest| && rest[i].id == id;
          assert kids[i + 1].id == id;
        }
      }
    }
  }

  lemma {:induction false} ChildRowsDistinct(rows: seq<Row>, parent: Option<Id>)
    requires DistinctIds(rows)
    ensures DistinctIds(ChildRows(rows, parent))
  {
    if rows != [] {
      ChildRowsDistinct(rows[1..], parent);
      var rest := ChildRows(rows[1..], parent);
      forall k | 0 <= k < |rest| ensures rest[k].id != rows[0].id {
        assert rest[k] in rest;
        var m :| 0 <= m < |rows[1..]| && rows[1..][m] == rest[k];
        assert rows[m + 1] == rest[k];
      }
      var kids := ChildRows(rows, parent);
      if rows[0].parent == parent {
        assert kids == [rows[0]] + rest;
      } else {
        assert kids == rest;
      }
    }
  }

  /** Exactly one child of `parent` lies on the way up from an organization below it. */
  lemma {:induction false} OneChildAbove(rows: seq<Row>, parent: Option<Id>, id: Id)
    requires DistinctIds(rows) && ReachesTop(rows, id)
    ensures Above(rows, ChildRows(rows, parent), id) == if StrictlyUnder(rows, id, parent) then 1 else 0
    decreases Depth(rows, id)
  {
    var row, kids := RowOf(rows, id), ChildRows(rows, parent);
    ChildRowsDistinct(rows, parent);
    if row.parent == parent {
      assert row in kids;
      var i :| 0 <= i < |kids| && kids[i] == row;
      assert HasRow(kids, id);
      forall k | k in kids ensures Under(rows, id, k.id) <==> k.id == id {
        OnlySelfAbove(rows, id, k);
      }
      AboveOnlySelf(rows, kids, id);
    } else {
      forall k | k in kids ensures k.id != id {
        if k.id == id {
          SameRow(rows, k, row);
        }
      }
      if row.parent.Some? {
        assert Climbs(rows, id);
        var q := row.parent.value;
        AboveSame(rows, kids, id, q);
        OneChildAbove(rows, parent, q);
      } else {
        NoneAbove(rows, kids, id);
      }
    }
  }

  lemma OnlySelfAbove(rows: seq<Row>, id: Id, k: Row)
    requires DistinctIds(rows) && ReachesTop(rows, id) && k in rows && k.parent == RowOf(rows, id).parent
    ensures Under(rows, id, k.id) <==> k.id == id
  {
    if Under(rows, id, k.id) && k.id != id {
      assert Climbs(rows, id);
      UnderIsDeeper(rows, k.parent.value, k.id);
      RoomBelow(rows, k);
    }
  }

  lemma {:induction false} NoneAbove(rows: seq<Row>, kids: seq<Row>, id: Id)
    requires ReachesTop(rows, id)
    requires forall k :: k in kids ==> !Under(rows, id, k.id)
    ensures Above(rows, kids, id) == 0
    decreases |kids|
  {
    if kids != [] {
      NoneAbove(rows, kids[1..], id);
    }
  }

  /** How often a tree below `parent` lists an organization: once if its chain of parents meets `parent`
      on the way to the top, and else not at all. */
  ghost function Expected(rows: seq<Row>, id: Id, parent: Option<Id>): nat {
    if ReachesTop(rows, id) && StrictlyUnder(rows, id, parent) then 1 else 0
  }

  lemma {:induction false} TreeCounts(rows: seq<Row>, parent: Option<Id>, id: Id)
    requires DistinctIds(rows) && Hangs(rows, parent)
    ensures multiset(Ids(BuildTree(rows, parent)))[id] == Expected(rows, id, parent)
    decreases Room(rows, parent), |rows| + 1
  {
    NodesCount(rows, ChildRows(rows, parent), parent, id);
    if ReachesTop(rows, id) {
      OneChildAbove(rows, parent, id);
    }
  }

  lemma CountNode(k: Id, below: seq<Node>, others: seq<Node>, id: Id)
    ensures multiset(Ids([Node(k, below)] + others))[id] ==
            (if id == k then 1 else 0) + multiset(Ids(below))[id] + multiset(Ids(others))[id]
  {
    var nodes := [Node(k, below)] + others;
    assert nodes[1..] == others;
    assert multiset(Ids(nodes))[id] ==
      multiset([k])[id] + multiset(Ids(below))[id] + multiset(Ids(others))[id];
  }

  lemma UnderSelfOrStrictly(rows: seq<Row>, id: Id, k: Id)
    requires ReachesTop(rows, id)
    ensures (if Under(rows, id, k) then 1 else 0) == (if id == k then 1 else 0) + Expected(rows, id, Some(k))
  {
    NotUnderItself(rows, id);
  }

  lemma {:induction false} NodesCount(rows: seq<Row>, kids: seq<Row>, parent: Option<Id>, id: Id)
    requires DistinctIds(rows) && Hangs(rows, parent) && |kids| <= |rows|
    requires forall row :: row in kids ==> row in rows && row.parent == parent
    ensures multiset(Ids(BuildNodes(rows, kids, parent)))[id] ==
            if ReachesTop(rows, id) then Above(rows, kids, id) else 0
    decreases Room(rows, parent), |kids|
  {
    if kids != [] {
      var k := kids[0].id;
      assert kids[0] in kids;
      RoomBelow(rows, kids[0]);
      var below := BuildTree(rows, Some(k));
      var others := BuildNodes(rows, kids[1..], parent);
      TreeCounts(rows, Some(k), id);
      NodesCount(rows, kids[1..], parent, id);
      CountNode(k, below, others, id);
      if ReachesTop(rows, id) {
        UnderSelfOrStrictly(rows, id, k);
      }
    }
  }

  // ── Every node under its parent ──

  ghost predicate Placed(rows: seq<Row>, nodes: seq<Node>, parent: Option<Id>) {
    forall i :: 0 <= i < |nodes| ==>
      Row(nodes[i].id, parent) in rows && Placed(rows, nodes[i].children, Some(nodes[i].id))
  }

  lemma {:induction false} TreePlaces(rows: seq<Row>, parent: Option<Id>)
    requires DistinctIds(rows) && Hangs(rows, parent)
    ensures Placed(rows, BuildTree(rows, parent), parent)
    decreases Room(rows, parent), |rows| + 1
  {
    NodesPlace(rows, ChildRows(rows, parent), parent);
  }

  lemma {:induction false} NodesPlace(rows: seq<Row>, kids: seq<Row>, parent: Option<Id>)
    requires DistinctIds(rows) && Hangs(rows, parent) && |kids| <= |rows|
    requires forall row :: row in kids ==> row in rows && row.parent == parent
    ensures Placed(rows, BuildNodes(rows, kids, parent), parent)
    decreases Room(rows, parent), |kids|
  {
    if kids != [] {
      assert kids[0] in kids && kids[0] == Row(kids[0].id, parent);
      RoomBelow(rows, kids[0]);
      TreePlaces(rows, Some(kids[0].id));
      NodesPlace(rows, kids[1..], parent);
    }
  }

  // ── Who is in the tree ──

  /** The whole tree lists an organization once if its chain of parents reaches the top, and else not at
      all, and hangs every node under its parent. */
  lemma WholeTree(rows: seq<Row>)
    requires DistinctIds(rows)
    ensures Placed(rows, BuildTree(rows, None), None)
    ensures forall id :: multiset(Ids(BuildTree(rows, None)))[id] == if ReachesTop(rows, id) then 1 else 0
  {
    TreePlaces(rows, None);
    forall id ensures multiset(Ids(BuildTree(rows, None)))[id] == if ReachesTop(rows, id) then 1 else 0 {
      TreeCounts(rows, None, id);
    }
  }

  /** Parents are listed and rank below their children: no cycle, and nobody under an unlisted parent. */
  ghost predicate RanksRows(rows: seq<Row>, rank: map<Id, nat>) {
    forall i :: 0 <= i < |rows| && rows[i].parent.Some? ==>
      && HasRow(rows, rows[i].parent.value)
      && rows[i].id in rank && rows[i].parent.value in rank && rank[rows[i].parent.value] < rank[rows[i].id]
  }

  lemma {:induction false} RankedReaches(rows: seq<Row>, rank: map<Id, nat>, id: Id)
    requires RanksRows(rows, rank) && HasRow(rows, id)
    ensures ReachesTop(rows, id)
    decreases if id in rank then rank[id] else 0
  {
    var row := RowOf(rows, id);
    var i :| 0 <= i < |rows| && rows[i] == row;
    if row.parent.Some? {
      RankedReaches(rows, rank, row.parent.value);
    }
    ThroughParent(rows, id);
  }

  /** The tree lists everyone iff the listing is a forest. */
  lemma TreeListsEveryoneIff(rows: seq<Row>)
    requires DistinctIds(rows)
    ensures (forall id :: HasRow(rows, id) ==> id in Ids(BuildTree(rows, None))) <==>
            exists rank :: RanksRows(rows, rank)
  {
    var ids := Ids(BuildTree(rows, None));
    forall id ensures id in ids <==> ReachesTop(rows, id) {
      TreeCounts(rows, None, id);
      assert id in ids <==> multiset(ids)[id] > 0;
    }
    if rank :| RanksRows(rows, rank) {
      forall id | HasRow(rows, id) ensures ReachesTop(rows, id) {
        RankedReaches(rows, rank, id);
      }
    }
    if forall id :: HasRow(rows, id) ==> id in ids {
      var rank := map id | id in ids :: Depth(rows, id);
      forall i | 0 <= i < |rows| && rows[i].parent.Some?
        ensures HasRow(rows, rows[i].parent.value)
        ensures rows[i].id in rank && rows[i].parent.value in rank && rank[rows[i].parent.value] < rank[rows[i].id]
      {
        var id := rows[i].id;
        assert HasRow(rows, id);
        SameRow(rows, rows[i], RowOf(rows, id));
        ThroughParent(rows, id);
      }
      assert RanksRows(rows, rank);
    }
  }

  // ── The tree of a company ──

  /** The rows are the active organizations, each once, in any order. */
  ghost predicate ListsActive(orgs: Orgs, rows: seq<Row>) {
    && DistinctIds(rows)
    && (forall i :: 0 <= i < |rows| ==> IsActive(orgs, rows[i].id) && rows[i].parent == orgs[rows[i].id].parent)
    && (forall id :: IsActive(orgs, id) ==> HasRow(rows, id))
  }

  /** While the hierarchy invariant holds, the tree lists every active organization exactly once. */
  lemma TreeListsEveryoneOnce(orgs: Orgs, rows: seq<Row>)
    requires Inv(orgs) && ListsActive(orgs, rows)
    ensures forall id :: multiset(Ids(BuildTree(rows, None)))[id] == if IsActive(orgs, id) then 1 else 0
  {
    var rank :| Ranked(orgs, rank);
    WholeTree(rows);
    assert RanksRows(rows, rank);
    forall id | IsActive(orgs, id) ensures ReachesTop(rows, id) {
      RankedReaches(rows, rank, id);
    }
    forall id | ReachesTop(rows, id) ensures IsActive(orgs, id) {
      var i :| 0 <= i < |rows| && rows[i].id == id;
    }
  }

  /** With no organization at the top the tree is empty. */
  lemma NoTopNoTree(rows: seq<Row>)
    requires DistinctIds(rows) && forall row :: row in rows ==> row.parent.Some?
    ensures BuildTree(rows, None) == []
  {
    assert forall row :: row !in ChildRows(rows, None);
  }

  /** The move that the check lets through among a hundred and one organizations leaves them all active,
      and the tree of the company empty. */
  lemma CompanyLost(rows: seq<Row>)
    ensures var moved := Update(ChainOf(MAX_DEPTH + 1), 0, Some(Some(MAX_DEPTH)));
            && moved.Success?
            && (forall id: Id :: id <= MAX_DEPTH ==> IsActive(moved.value, id))
            && (ListsActive(moved.value, rows) ==> BuildTree(rows, None) == [])
  {
    HundredAndOneIsTooMany();
    var after := Update(ChainOf(MAX_DEPTH + 1), 0, Some(Some(MAX_DEPTH))).value;
    MovedChain(MAX_DEPTH + 1);
    if ListsActive(after, rows) {
      NoTopNoTree(rows);
    }
  }

  lemma MovedChain(n: nat)
    requires n > 1 && Update(ChainOf(n), 0, Some(Some(n - 1))).Success?
    ensures var after := Update(ChainOf(n), 0, Some(Some(n - 1))).value;
            forall id: Id :: (IsActive(after, id) <==> id < n) && (id in after ==> after[id].parent.Some?)
  {
  }
}
