/** The graph the workflow visualiser derives from a workflow's steps and the agent list:
    one node per step on a three-column grid, one edge per dependency that resolves by
    `order` to some step. There is no cycle detection, no duplicate-order diagnostic, and a
    dependency that resolves to nothing is dropped without a trace. */
module WorkflowCanvas {
  import opened Wrappers
  import opened Entities
  import opened Lists

  /** What a node shows: "Step <order>", the agent's name, the action text. */
  datatype Label = Label(order: int, agentName: string, action: string)

  datatype Node = Node(id: string, x: int, y: int, caption: Label)

  /** A directed edge from the prerequisite (`source`) to the dependent step (`target`). */
  datatype Edge = Edge(id: string, source: string, target: string)

  datatype Graph = Graph(nodes: seq<Node>, edges: seq<Edge>)

  const Columns: nat := 3
  const ColumnWidth: int := 300
  const RowHeight: int := 150
  const LeftMargin: int := 100
  const TopMargin: int := 50
  const UnknownAgent: string := "Unknown Agent"

  // ---------------------------------------------------------------- nodes

  /** Horizontal position of the node at position index of the step list. */
  function X(index: nat): (x: int)
    ensures x == LeftMargin || x == LeftMargin + ColumnWidth || x == LeftMargin + 2 * ColumnWidth
  {
    (index % Columns) * ColumnWidth + LeftMargin
  }

  /** Vertical position of the node at position index of the step list. */
  function Y(index: nat): (y: int)
    ensures y >= TopMargin && (y - TopMargin) % RowHeight == 0
    ensures y == TopMargin <==> index < Columns
  {
    (index / Columns) * RowHeight + TopMargin
  }

  /** Two different positions in the step list never share grid coordinates. */
  lemma PositionsDistinct(i: nat, j: nat)
    requires i != j
    ensures X(i) != X(j) || Y(i) != Y(j)
  {
  }

  /** Nodes fill the grid row after row: three places on is the same column, one row lower. */
  lemma PositionInGrid(i: nat)
    requires i >= Columns
    ensures X(i) == X(i - Columns) && Y(i) == Y(i - Columns) + RowHeight
  {
  }

  /** The position of the first agent whose id is `agentId` (`agents.find(a => a.id === step.agentId)`). */
  function FindAgent(agents: seq<Agent>, agentId: string): (r: Option<nat>)
    ensures r.Some? ==> r.value < |agents| && agents[r.value].id == agentId
    ensures r.Some? ==> forall j :: 0 <= j < r.value ==> agents[j].id != agentId
    ensures r.None? <==> forall j :: 0 <= j < |agents| ==> agents[j].id != agentId
  {
    if agents == [] then None
    else if agents[0].id == agentId then Some(0)
    else match FindAgent(agents[1..], agentId)
      case None => None
      case Some(k) => Some(k + 1)
  }

  /** The agent name a node shows: the name of the first matching agent, or "Unknown Agent".
      A matching agent without a name renders as empty text. */
  function AgentName(agents: seq<Agent>, agentId: string): (r: string)
    ensures (forall j :: 0 <= j < |agents| ==> agents[j].id != agentId) ==> r == UnknownAgent
    ensures forall k ::
      (0 <= k < |agents| && agents[k].id == agentId && forall j :: 0 <= j < k ==> agents[j].id != agentId)
      ==> r == OrElse(agents[k].name, "")
  {
    match FindAgent(agents, agentId)
    case None => UnknownAgent
    case Some(k) => OrElse(agents[k].name, "")
  }

  /** The nodes: one per step, in step order, keyed by the step's id (`workflow.steps.map(...)`). */
  function BuildNodes(steps: seq<Step>, agents: seq<Agent>): (nodes: seq<Node>)
    ensures |nodes| == |steps|
    ensures forall i :: 0 <= i < |steps| ==>
      && nodes[i].id == steps[i].id
      && nodes[i].x == X(i) && nodes[i].y == Y(i)
      && nodes[i].caption == Label(steps[i].order, AgentName(agents, steps[i].agentId), steps[i].action)
  {
    seq(|steps|, i requires 0 <= i < |steps| =>
      Node(steps[i].id, X(i), Y(i), Label(steps[i].order, AgentName(agents, steps[i].agentId), steps[i].action)))
  }

  /** Coordinates depend on the position alone: any two step lists place their i-th nodes alike. */
  lemma NodePositionsIgnoreContent(s1: seq<Step>, a1: seq<Agent>, s2: seq<Step>, a2: seq<Agent>, i: nat)
    requires i < |s1| && i < |s2|
    ensures BuildNodes(s1, a1)[i].x == BuildNodes(s2, a2)[i].x
    ensures BuildNodes(s1, a1)[i].y == BuildNodes(s2, a2)[i].y
  {
  }

  /** No two nodes of one graph overlap. */
  lemma NodesDoNotOverlap(steps: seq<Step>, agents: seq<Agent>, i: nat, j: nat)
    requires i < j < |steps|
    ensures BuildNodes(steps, agents)[i].x != BuildNodes(steps, agents)[j].x
         || BuildNodes(steps, agents)[i].y != BuildNodes(steps, agents)[j].y
  {
    PositionsDistinct(i, j);
  }

  // ---------------------------------------------------------------- edges

  /** The position of the first step whose order is d (`workflow.steps.find(s => s.order === d)`):
      with duplicate orders the earliest step wins. */
  function SourceIndex(all: seq<Step>, d: int): (r: Option<nat>)
    ensures r.Some? ==> r.value < |all|
  {
    if all == [] then None
    else if all[0].order == d then Some(0)
    else match SourceIndex(all[1..], d)
      case None => None
      case Some(k) => Some(k + 1)
  }

  /** SourceIndex finds the earliest step carrying order d, and finds nothing only when no step does. */
  lemma {:induction false} SourceIndexFirst(all: seq<Step>, d: int)
    ensures SourceIndex(all, d).Some? ==> all[SourceIndex(all, d).value].order == d
    ensures SourceIndex(all, d).Some? ==> forall j :: 0 <= j < SourceIndex(all, d).value ==> all[j].order != d
    ensures SourceIndex(all, d).None? <==> forall j :: 0 <= j < |all| ==> all[j].order != d
  {
    if all != [] && all[0].order != d {
      SourceIndexFirst(all[1..], d);
      assert forall j :: 1 <= j < |all| ==> all[j] == all[1..][j - 1];
    }
  }

  function MakeEdge(source: Step, target: Step): Edge {
    Edge(source.id + "-" + target.id, source.id, target.id)
  }

  /** The edges dependency d of target contributes: one when d resolves, none otherwise. */
  function EdgeFor(all: seq<Step>, d: int, target: Step): seq<Edge> {
    match SourceIndex(all, d)
    case None => []
    case Some(k) => [MakeEdge(all[k], target)]
  }

  /** The edges into target, in the order of its dependency list. */
  function DepEdges(all: seq<Step>, deps: seq<int>, target: Step): (r: seq<Edge>)
    ensures |r| <= |deps|
    ensures forall i :: 0 <= i < |r| ==> r[i].target == target.id
    decreases |deps|
  {
    if deps == [] then []
    else DepEdges(all, deps[..|deps| - 1], target) + EdgeFor(all, deps[|deps| - 1], target)
  }

  /** The edges into the steps ts, grouped by target in step order, resolved against all. */
  function EdgesOf(all: seq<Step>, ts: seq<Step>): (r: seq<Edge>)
    ensures |r| <= TotalDeps(ts)
    decreases |ts|
  {
    if ts == [] then []
    else EdgesOf(all, ts[..|ts| - 1]) + DepEdges(all, ts[|ts| - 1].dependencies, ts[|ts| - 1])
  }

  predicate Resolves(all: seq<Step>, d: int) {
    SourceIndex(all, d).Some?
  }

  /** How many entries of deps resolve to a step of all. */
  function ResolvedCount(all: seq<Step>, deps: seq<int>): nat
    decreases |deps|
  {
    if deps == [] then 0
    else ResolvedCount(all, deps[..|deps| - 1]) + (if Resolves(all, deps[|deps| - 1]) then 1 else 0)
  }

  /** How many dependency entries of the steps ts resolve to a step of all. */
  function TotalResolved(all: seq<Step>, ts: seq<Step>): nat
    decreases |ts|
  {
    if ts == [] then 0
    else TotalResolved(all, ts[..|ts| - 1]) + ResolvedCount(all, ts[|ts| - 1].dependencies)
  }

  /** How many dependency entries the steps ts hold in all. */
  function TotalDeps(ts: seq<Step>): nat
    decreases |ts|
  {
    if ts == [] then 0 else TotalDeps(ts[..|ts| - 1]) + |ts[|ts| - 1].dependencies|
  }

  /** The edges into one step: exactly as many as its resolving dependencies, never more than it has. */
  lemma {:induction false} DepEdgesCount(all: seq<Step>, deps: seq<int>, target: Step)
    ensures |DepEdges(all, deps, target)| == ResolvedCount(all, deps) <= |deps|
    decreases |deps|
  {
    if deps != [] {
      DepEdgesCount(all, deps[..|deps| - 1], target);
    }
  }

  /** There are exactly as many edges as resolving dependency entries, which is at most all entries. */
  lemma {:induction false} EdgeCount(all: seq<Step>, ts: seq<Step>)
    ensures |EdgesOf(all, ts)| == TotalResolved(all, ts) <= TotalDeps(ts)
    decreases |ts|
  {
    if ts != [] {
      EdgeCount(all, ts[..|ts| - 1]);
      DepEdgesCount(all, ts[|ts| - 1].dependencies, ts[|ts| - 1]);
    }
  }

  /** Splitting a dependency list splits its edges: edges follow dependency-list order. */
  lemma {:induction false} DepEdgesAppend(all: seq<Step>, d1: seq<int>, d2: seq<int>, target: Step)
    ensures DepEdges(all, d1 + d2, target) == DepEdges(all, d1, target) + DepEdges(all, d2, target)
    decreases |d2|
  {
    if d2 == [] {
      assert d1 + d2 == d1;
    } else {
      var d := d1 + d2;
      var last := d2[|d2| - 1];
      var d2' := d2[..|d2| - 1];
      assert d[..|d| - 1] == d1 + d2';
      assert d[|d| - 1] == last;
      DepEdgesAppend(all, d1, d2', target);
      Associative(DepEdges(all, d1, target), DepEdges(all, d2', target), EdgeFor(all, last, target));
    }
  }

  /** Splitting the step list splits the edges: edges are grouped by target in step order. */
  lemma {:induction false} EdgesOfAppend(all: seq<Step>, t1: seq<Step>, t2: seq<Step>)
    ensures EdgesOf(all, t1 + t2) == EdgesOf(all, t1) + EdgesOf(all, t2)
    decreases |t2|
  {
    if t2 == [] {
      assert t1 + t2 == t1;
    } else {
      var last := t2[|t2| - 1];
      var t2' := t2[..|t2| - 1];
      var tail := DepEdges(all, last.dependencies, last);
      assert t2 == t2' + [last];
      Associative(t1, t2', [last]);
      EdgesOfSnoc(all, t2', last);
      EdgesOfSnoc(all, t1 + t2', last);
      EdgesOfAppend(all, t1, t2');
      Associative(EdgesOf(all, t1), EdgesOf(all, t2'), tail);
    }
  }

  /** Concatenation is associative. */
  lemma Associative<T>(a: seq<T>, b: seq<T>, c: seq<T>)
    ensures (a + b) + c == a + (b + c)
  {
  }

  /** One more step adds its own edges at the end. */
  lemma EdgesOfSnoc(all: seq<Step>, ts: seq<Step>, t: Step)
    ensures EdgesOf(all, ts + [t]) == EdgesOf(all, ts) + DepEdges(all, t.dependencies, t)
  {
    assert (ts + [t])[..|ts|] == ts;
  }

  /** A dependency entry that matches no step's order contributes no edge and no failure:
      the edges are those of the list without it. */
  lemma DanglingDependencyDropped(all: seq<Step>, d1: seq<int>, d: int, d2: seq<int>, target: Step)
    requires forall j :: 0 <= j < |all| ==> all[j].order != d
    ensures DepEdges(all, d1 + [d] + d2, target) == DepEdges(all, d1 + d2, target)
  {
    SourceIndexFirst(all, d);
    assert [d][..0] == [];
    assert DepEdges(all, [d], target) == [];
    DepEdgesAppend(all, d1 + [d], d2, target);
    DepEdgesAppend(all, d1, [d], target);
    DepEdgesAppend(all, d1, d2, target);
  }

  /** Edge e is produced for dependency d of target. */
  predicate Produces(all: seq<Step>, target: Step, d: int, e: Edge) {
    match SourceIndex(all, d)
    case None => false
    case Some(k) => e == MakeEdge(all[k], target)
  }

  /** Some entry of deps, declared by target, produces edge e. */
  predicate SomeEntryProduces(all: seq<Step>, deps: seq<int>, target: Step, e: Edge) {
    exists j :: 0 <= j < |deps| && Produces(all, target, deps[j], e)
  }

  lemma {:induction false} DepEdgesMembership(all: seq<Step>, deps: seq<int>, target: Step, e: Edge)
    ensures e in DepEdges(all, deps, target) <==> SomeEntryProduces(all, deps, target, e)
    decreases |deps|
  {
    if deps != [] {
      var n := |deps| - 1;
      var front := deps[..n];
      DepEdgesMembership(all, front, target, e);
      assert DepEdges(all, deps, target) == DepEdges(all, front, target) + EdgeFor(all, deps[n], target);
      assert e in EdgeFor(all, deps[n], target) <==> Produces(all, target, deps[n], e);
      if SomeEntryProduces(all, front, target, e) {
        var j :| 0 <= j < |front| && Produces(all, target, front[j], e);
        assert deps[j] == front[j];
      }
      if SomeEntryProduces(all, deps, target, e) {
        var j :| 0 <= j < |deps| && Produces(all, target, deps[j], e);
        if j < n {
          assert front[j] == deps[j];
          assert SomeEntryProduces(all, front, target, e);
        }
      }
    }
  }

  /** Some dependency entry of some step of ts produces edge e. */
  predicate SomeStepProduces(all: seq<Step>, ts: seq<Step>, e: Edge) {
    exists k :: 0 <= k < |ts| && SomeEntryProduces(all, ts[k].dependencies, ts[k], e)
  }

  lemma SomeStepProducesSnoc(all: seq<Step>, front: seq<Step>, t: Step, e: Edge)
    ensures SomeStepProduces(all, front + [t], e) <==>
      SomeStepProduces(all, front, e) || SomeEntryProduces(all, t.dependencies, t, e)
  {
    var ts := front + [t];
    if SomeStepProduces(all, front, e) {
      var k :| 0 <= k < |front| && SomeEntryProduces(all, front[k].dependencies, front[k], e);
      assert ts[k] == front[k];
    }
    if SomeEntryProduces(all, t.dependencies, t, e) {
      assert ts[|front|] == t;
    }
    if SomeStepProduces(all, ts, e) {
      var k :| 0 <= k < |ts| && SomeEntryProduces(all, ts[k].dependencies, ts[k], e);
      if k < |front| {
        assert ts[k] == front[k];
      }
    }
  }

  /** An edge is in the graph exactly when some dependency entry of some step produces it: target is
      that step and source is the first step whose order is the entry. Both directions. */
  lemma {:induction false} EdgeMembership(all: seq<Step>, ts: seq<Step>, e: Edge)
    ensures e in EdgesOf(all, ts) <==> SomeStepProduces(all, ts, e)
    decreases |ts|
  {
    if ts != [] {
      var n := |ts| - 1;
      var front := ts[..n];
      EdgeMembership(all, front, e);
      DepEdgesMembership(all, ts[n].dependencies, ts[n], e);
      assert EdgesOf(all, ts) == EdgesOf(all, front) + DepEdges(all, ts[n].dependencies, ts[n]);
      SomeStepProducesSnoc(all, front, ts[n], e);
      assert front + [ts[n]] == ts;
    }
  }

  /** Every edge of the graph runs from the first step carrying the dependency's order to the step that
      declared it, and its id is "<source id>-<target id>". */
  lemma EdgeShape(steps: seq<Step>, e: Edge)
    requires e in EdgesOf(steps, steps)
    ensures exists s, k, j ::
      && 0 <= s < |steps| && 0 <= k < |steps| && 0 <= j < |steps[k].dependencies|
      && steps[s].order == steps[k].dependencies[j]
      && (forall i :: 0 <= i < s ==> steps[i].order != steps[s].order)
      && e == Edge(steps[s].id + "-" + steps[k].id, steps[s].id, steps[k].id)
  {
    EdgeMembership(steps, steps, e);
    var k :| 0 <= k < |steps| && SomeEntryProduces(steps, steps[k].dependencies, steps[k], e);
    var j :| 0 <= j < |steps[k].dependencies| && Produces(steps, steps[k], steps[k].dependencies[j], e);
    SourceIndexFirst(steps, steps[k].dependencies[j]);
    var s := SourceIndex(steps, steps[k].dependencies[j]).value;
    assert steps[s].order == steps[k].dependencies[j];
  }

  /** A step listing its own order (and first to carry it) gets a self-loop edge. */
  lemma SelfLoop(steps: seq<Step>, k: nat, j: nat)
    requires k < |steps| && j < |steps[k].dependencies| && steps[k].dependencies[j] == steps[k].order
    requires forall i :: 0 <= i < k ==> steps[i].order != steps[k].order
    ensures Edge(steps[k].id + "-" + steps[k].id, steps[k].id, steps[k].id) in EdgesOf(steps, steps)
  {
    var e := Edge(steps[k].id + "-" + steps[k].id, steps[k].id, steps[k].id);
    SourceIndexFirst(steps, steps[k].order);
    var r := SourceIndex(steps, steps[k].order);
    assert r.Some? && r.value <= k;
    assert r == Some(k);
    assert Produces(steps, steps[k], steps[k].dependencies[j], e);
    assert SomeEntryProduces(steps, steps[k].dependencies, steps[k], e);
    assert SomeStepProduces(steps, steps, e);
    EdgeMembership(steps, steps, e);
  }

  /** Steps with no dependency entries contribute no edges. */
  lemma {:induction false} NoDependenciesNoEdges(all: seq<Step>, ts: seq<Step>)
    requires forall k :: 0 <= k < |ts| ==> ts[k].dependencies == []
    ensures EdgesOf(all, ts) == []
    decreases |ts|
  {
    if ts != [] {
      NoDependenciesNoEdges(all, ts[..|ts| - 1]);
    }
  }

  lemma DepEdgesPrefix(all: seq<Step>, deps: seq<int>, j: nat, target: Step)
    requires j < |deps|
    ensures DepEdges(all, deps[..j + 1], target) == DepEdges(all, deps[..j], target) + EdgeFor(all, deps[j], target)
  {
    assert deps[..j + 1][..j] == deps[..j];
  }

  lemma EdgesOfPrefix(all: seq<Step>, ts: seq<Step>, i: nat)
    requires i < |ts|
    ensures EdgesOf(all, ts[..i + 1]) == EdgesOf(all, ts[..i]) + DepEdges(all, ts[i].dependencies, ts[i])
  {
    assert ts[..i + 1][..i] == ts[..i];
  }

  /** The edge list, built as the source builds it: a loop over the steps, and for each step with a
      non-empty dependency list a loop over that list pushing one edge per resolving entry. */
  method BuildEdges(steps: seq<Step>) returns (edges: seq<Edge>)
    ensures edges == EdgesOf(steps, steps)
    ensures |edges| == TotalResolved(steps, steps) <= TotalDeps(steps)
  {
    edges := [];
    var i := 0;
    while i < |steps|
      invariant 0 <= i <= |steps|
      invariant edges == EdgesOf(steps, steps[..i])
    {
      var step := steps[i];
      if |step.dependencies| > 0 {
        edges := PushDepEdges(steps, step, edges);
      }
      EdgesOfPrefix(steps, steps, i);
      i := i + 1;
    }
    assert steps[..i] == steps;
    EdgeCount(steps, steps);
  }

  /** The inner loop of BuildEdges: for each dependency entry of target in turn, push the edge
      from the step it resolves to, if any. */
  method PushDepEdges(all: seq<Step>, target: Step, edges: seq<Edge>) returns (r: seq<Edge>)
    ensures r == edges + DepEdges(all, target.dependencies, target)
  {
    var deps := target.dependencies;
    r := edges;
    var j := 0;
    while j < |deps|
      invariant 0 <= j <= |deps|
      invariant r == edges + DepEdges(all, deps[..j], target)
    {
      DepEdgesPrefix(all, deps, j, target);
      Associative(edges, DepEdges(all, deps[..j], target), EdgeFor(all, deps[j], target));
      var source := SourceIndex(all, deps[j]);
      if source.Some? {
        r := r + [MakeEdge(all[source.value], target)];
      }
      j := j + 1;
    }
    assert deps[..j] == deps;
  }

  /** The effect body: nothing is computed when the workflow or its step list is missing;
      otherwise the nodes and the edges of its steps. */
  method ComputeGraph(workflow: Option<Workflow>, agents: seq<Agent>) returns (g: Option<Graph>)
    ensures g.None? <==> workflow.None? || workflow.value.steps.None?
    ensures g.Some? ==> g.value.nodes == BuildNodes(workflow.value.steps.value, agents)
    ensures g.Some? ==> g.value.edges == EdgesOf(workflow.value.steps.value, workflow.value.steps.value)
  {
    if workflow.None? || workflow.value.steps.None? {
      return None;
    }
    var steps := workflow.value.steps.value;
    var nodes := BuildNodes(steps, agents);
    var edges := BuildEdges(steps);
    g := Some(Graph(nodes, edges));
  }
}
