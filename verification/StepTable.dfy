/** Queries and bulk updates over the step rows of one document, in whatever order they are stored. */
module StepTable {
  import opened Wrappers
  import opened ApprovalTypes

  type StepFilter = (nat, Step) -> bool

  /** The first row of least stepOrder among those the filter keeps. */
  function Earliest(steps: seq<Step>, p: StepFilter): (r: Option<nat>)
    ensures r.None? ==> forall j :: 0 <= j < |steps| ==> !p(j, steps[j])
    ensures r.Some? ==> r.value < |steps| && p(r.value, steps[r.value])
    ensures r.Some? ==> forall j :: 0 <= j < |steps| && p(j, steps[j]) ==>
      steps[r.value].order <= steps[j].order
    ensures r.Some? ==> forall j :: 0 <= j < r.value && p(j, steps[j]) ==>
      steps[r.value].order < steps[j].order
  {
    if steps == [] then None else
    var n := |steps| - 1;
    var before := Earliest(steps[..n], p);
    if p(n, steps[n]) && (before.None? || steps[n].order < steps[before.value].order) then Some(n)
    else before
  }

  /** The first row of greatest stepOrder among those the filter keeps. */
  function Latest(steps: seq<Step>, p: StepFilter): (r: Option<nat>)
    ensures r.None? ==> forall j :: 0 <= j < |steps| ==> !p(j, steps[j])
    ensures r.Some? ==> r.value < |steps| && p(r.value, steps[r.value])
    ensures r.Some? ==> forall j :: 0 <= j < |steps| && p(j, steps[j]) ==>
      steps[j].order <= steps[r.value].order
    ensures r.Some? ==> forall j :: 0 <= j < r.value && p(j, steps[j]) ==>
      steps[j].order < steps[r.value].order
  {
    if steps == [] then None else
    var n := |steps| - 1;
    var before := Latest(steps[..n], p);
    if p(n, steps[n]) && (before.None? || steps[n].order > steps[before.value].order) then Some(n)
    else before
  }

  /** updateMany: every row the filter keeps gets the status. */
  function UpdateMany(steps: seq<Step>, p: StepFilter, status: StepStatus): (r: seq<Step>)
    ensures |r| == |steps|
    ensures forall j :: 0 <= j < |steps| ==>
      r[j] == if p(j, steps[j]) then steps[j].(status := status) else steps[j]
  {
    seq(|steps|, j requires 0 <= j < |steps| =>
      if p(j, steps[j]) then steps[j].(status := status) else steps[j])
  }

  // ── The flow line: the flow rows read in stepOrder ──

  predicate Within(line: seq<nat>, bound: nat) {
    forall x :: 0 <= x < |line| ==> line[x] < bound
  }

  /** `line` with row `j` put in its place by stepOrder, after rows of the same order. */
  function Insert(steps: seq<Step>, line: seq<nat>, j: nat): (r: seq<nat>)
    requires j < |steps| && Within(line, |steps|)
    ensures |r| == |line| + 1 && Within(r, |steps|)
    ensures forall v: nat :: v in r <==> v in line || v == j
  {
    if line == [] || steps[line[|line| - 1]].order <= steps[j].order then
      line + [j]
    else
      assert line == line[..|line| - 1] + [line[|line| - 1]];
      Insert(steps, line[..|line| - 1], j) + [line[|line| - 1]]
  }

  /** Positions of the flow rows (approvers, agreements, department collaborators) in stepOrder. */
  function FlowLine(steps: seq<Step>): (line: seq<nat>)
    ensures Within(line, |steps|)
    ensures forall v: nat :: v in line <==> v < |steps| && IsFlow(steps[v].role)
  {
    if steps == [] then [] else
    var n := |steps| - 1;
    var before := FlowLine(steps[..n]);
    if IsFlow(steps[n].role) then Insert(steps, before, n) else before
  }

  /** The statuses of the flow rows, read in stepOrder. */
  function FlowStatuses(steps: seq<Step>): (r: seq<StepStatus>)
    ensures |r| == |FlowLine(steps)|
  {
    var line := FlowLine(steps);
    seq(|line|, x requires 0 <= x < |line| =>
      steps[line[x]].status)
  }

  /** No two flow rows share a stepOrder. */
  ghost predicate DistinctFlowOrders(steps: seq<Step>) {
    forall i, j :: 0 <= i < j < |steps| && IsFlow(steps[i].role) && IsFlow(steps[j].role) ==>
      steps[i].order != steps[j].order
  }

  ghost predicate Sorted(steps: seq<Step>, line: seq<nat>)
    requires Within(line, |steps|)
  {
    forall x, y :: 0 <= x < y < |line| ==> steps[line[x]].order <= steps[line[y]].order
  }

  ghost predicate NoRepeats(line: seq<nat>) {
    forall x, y :: 0 <= x < y < |line| ==> line[x] != line[y]
  }

  lemma InsertSorted(steps: seq<Step>, line: seq<nat>, j: nat)
    requires j < |steps| && Within(line, |steps|)
    requires Sorted(steps, line) && NoRepeats(line) && j !in line
    ensures Sorted(steps, Insert(steps, line, j)) && NoRepeats(Insert(steps, line, j))
  {
    if line == [] || steps[line[|line| - 1]].order <= steps[j].order {
      forall v | v in line ensures v != j && steps[v].order <= steps[j].order {
        var x :| 0 <= x < |line| && line[x] == v;
      }
      AppendSorted(steps, line, j);
    } else {
      var short, last := line[..|line| - 1], line[|line| - 1];
      InsertSorted(steps, short, j);
      forall v | v in Insert(steps, short, j) ensures v != last && steps[v].order <= steps[last].order {
        if v != j {
          var y :| 0 <= y < |short| && short[y] == v;
        }
      }
      AppendSorted(steps, Insert(steps, short, j), last);
    }
  }

  lemma AppendSorted(steps: seq<Step>, line: seq<nat>, last: nat)
    requires last < |steps| && Within(line, |steps|) && Sorted(steps, line) && NoRepeats(line)
    requires forall v :: v in line ==> v != last && steps[v].order <= steps[last].order
    ensures Within(line + [last], |steps|) && Sorted(steps, line + [last]) && NoRepeats(line + [last])
  {
    assert forall x :: 0 <= x < |line| ==> line[x] in line;
  }

  /** The line is sorted by stepOrder and names no row twice. */
  lemma FlowLineSorted(steps: seq<Step>)
    ensures Sorted(steps, FlowLine(steps)) && NoRepeats(FlowLine(steps))
  {
    if steps != [] {
      var n := |steps| - 1;
      FlowLineSorted(steps[..n]);
      var before := FlowLine(steps[..n]);
      assert forall x :: 0 <= x < |before| ==> before[x] in before;
      if IsFlow(steps[n].role) {
        InsertSorted(steps, before, n);
      }
    }
  }

  /** In a line without ties, order along the line is the order of positions. */
  lemma FlowLineStrict(steps: seq<Step>, x: nat, y: nat)
    requires DistinctFlowOrders(steps)
    requires x < |FlowLine(steps)| && y < |FlowLine(steps)|
    ensures var line := FlowLine(steps);
            (x < y <==> steps[line[x]].order < steps[line[y]].order)
  {
    FlowLineSorted(steps);
    var line := FlowLine(steps);
    assert line[x] in line && line[y] in line;
  }

  /** The line depends on roles and orders only, and rows outside the flow do not shift it. */
  lemma {:induction false} FlowLineStable(s: seq<Step>, t: seq<Step>)
    requires |s| <= |t|
    requires forall j :: 0 <= j < |s| ==> s[j].role == t[j].role && s[j].order == t[j].order
    requires forall j :: |s| <= j < |t| ==> !IsFlow(t[j].role)
    ensures FlowLine(s) == FlowLine(t)
    decreases |t|
  {
    if t != [] {
      var n := |t| - 1;
      if |s| == |t| {
        FlowLineStable(s[..n], t[..n]);
        if IsFlow(s[n].role) {
          InsertStable(s, t, FlowLine(s[..n]), n);
        }
      } else {
        FlowLineStable(s, t[..n]);
      }
    }
  }

  lemma InsertStable(s: seq<Step>, t: seq<Step>, line: seq<nat>, j: nat)
    requires |s| == |t| && j < |s| && Within(line, |s|)
    requires forall i :: 0 <= i < |s| ==> s[i].order == t[i].order
    ensures Insert(s, line, j) == Insert(t, line, j)
  {
  }

  /** A flow row's place on the line. */
  lemma FlowPosition(steps: seq<Step>, j: nat) returns (x: nat)
    requires j < |steps| && IsFlow(steps[j].role)
    ensures x < |FlowLine(steps)| && FlowLine(steps)[x] == j
  {
    assert j in FlowLine(steps);
    x :| x < |FlowLine(steps)| && FlowLine(steps)[x] == j;
  }
}
