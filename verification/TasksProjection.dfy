/**
 The rendered task list: one section for each execution plan, tasks numbered in
 their deterministic order.
 */
module TasksProjection {
  import opened Options
  import opened Text
  import opened ProjectionRecords
  import opened TaskOrder
  import opened TaskOrdering
  import opened Projection

  function TaskNumber(index: nat): string {
    "T" + PadStart(Decimal(index + 1), 3)
  }

  /** The tasks a plan contains, one for each edge, as the edges list them. */
  function TasksOf(es: seq<Edge>, nodes: map<string, Node>): seq<string> {
    if es == [] then []
    else
      var target := es[|es| - 1].target;
      TasksOf(es[..|es| - 1], nodes) + if target in nodes && nodes[target].kind == Task then [nodes[target].id] else []
  }

  function PlanTasks(nodes: map<string, Node>, edges: seq<Edge>, plan: string): seq<string> {
    SortStrings(TasksOf(EdgesFrom(edges, plan, Contains), nodes))
  }

  function Numbers(ordered: seq<string>): map<string, string> {
    if ordered == [] then map[]
    else Numbers(ordered[..|ordered| - 1])[ordered[|ordered| - 1] := TaskNumber(|ordered| - 1)]
  }

  function Roots(ordered: seq<string>, edges: seq<Edge>): set<string> {
    set id | id in ordered && EdgesFrom(edges, id, DependsOn) == []
  }

  function Labels(es: seq<Edge>, numbers: map<string, string>): seq<string> {
    if es == [] then []
    else
      var target := es[|es| - 1].target;
      Labels(es[..|es| - 1], numbers) + [if target in numbers then numbers[target] else target]
  }

  function TaskLine(nodes: map<string, Node>, edges: seq<Edge>, completed: set<string>, ordered: seq<string>,
                    id: string): string {
    var numbers, roots := Numbers(ordered), Roots(ordered, edges);
    var checkbox := if id in completed then "[x]" else "[ ]";
    var parallel := if id in roots && |roots| > 1 then " [P]" else "";
    var task := NodeAt(nodes, id);
    var objective := if task.objective.Some? then task.objective.value else task.id;
    var dependencies := SortStrings(Labels(EdgesFrom(edges, id, DependsOn), numbers));
    var depends := if |dependencies| > 0 then " (depends on " + Join(dependencies, ", ") + ")" else "";
    "- " + checkbox + " " + (if id in numbers then numbers[id] else id) + parallel + " " + objective + depends
  }

  function TaskLines(nodes: map<string, Node>, edges: seq<Edge>, completed: set<string>, ordered: seq<string>,
                     n: nat): seq<string>
    requires n <= |ordered|
  {
    if n == 0 then []
    else TaskLines(nodes, edges, completed, ordered, n - 1)
         + [TaskLine(nodes, edges, completed, ordered, ordered[n - 1])]
  }

  function TaskSources(nodes: map<string, Node>, ordered: seq<string>): seq<Source> {
    if ordered == [] then []
    else
      var task := NodeAt(nodes, ordered[|ordered| - 1]);
      TaskSources(nodes, ordered[..|ordered| - 1]) + [Source(task.id, task.revision)]
  }

  // ----- The list as a function of the current graph -----

  ghost function PlanOrder(nodes: map<string, Node>, edges: seq<Edge>, plan: string): seq<string> {
    OrderOf(PlanTasks(nodes, edges, plan), edges)
  }

  ghost function PlanLines(nodes: map<string, Node>, edges: seq<Edge>, completed: set<string>,
                           plan: Node): seq<string> {
    var ordered := PlanOrder(nodes, edges, plan.id);
    ["## Plan " + plan.id + " (revision " + Integer(plan.revision) + ")", ""]
    + if PlanTasks(nodes, edges, plan.id) == [] then ["No tasks in this plan.", ""]
      else TaskLines(nodes, edges, completed, ordered, |ordered|) + [""]
  }

  ghost function PlanSources(nodes: map<string, Node>, edges: seq<Edge>, plan: Node): seq<Source> {
    [Source(plan.id, plan.revision)]
    + if PlanTasks(nodes, edges, plan.id) == [] then [] else TaskSources(nodes, PlanOrder(nodes, edges, plan.id))
  }

  ghost function Body(nodes: map<string, Node>, edges: seq<Edge>, completed: set<string>,
                      plans: seq<Node>): seq<string> {
    if plans == [] then Title()
    else Body(nodes, edges, completed, plans[..|plans| - 1]) + PlanLines(nodes, edges, completed, plans[|plans| - 1])
  }

  ghost function BodySources(nodes: map<string, Node>, edges: seq<Edge>, plans: seq<Node>): seq<Source> {
    if plans == [] then []
    else BodySources(nodes, edges, plans[..|plans| - 1]) + PlanSources(nodes, edges, plans[|plans| - 1])
  }

  function Title(): seq<string> {
    ["# Tasks", "", "Generated from the authoritative graph -- do not edit. Regenerate with `harness snapshot`.", ""]
  }

  /** The whole document, from the current nodes, the active edges and the completed tasks alone. */
  ghost function TasksDocument(nodes: map<string, Node>, edges: seq<Edge>, completed: set<string>,
                               digest: Digest): Document {
    var plans := NodesByType(nodes, ExecutionPlan);
    if plans == [] then DocumentOf("tasks", [], Title() + ["No execution plan recorded yet."], digest)
    else DocumentOf("tasks", BodySources(nodes, edges, plans), Body(nodes, edges, completed, plans), digest)
  }

  // ----- Rendering -----

  method RenderPlan(nodes: map<string, Node>, edges: seq<Edge>, completed: set<string>,
                    plan: Node) returns (sources: seq<Source>, body: seq<string>)
    ensures sources == PlanSources(nodes, edges, plan) && body == PlanLines(nodes, edges, completed, plan)
  {
    hide TaskLine, OrderOf, OrderSpec, Distinct, SortStrings, Dependencies;
    sources := [Source(plan.id, plan.revision)];
    body := ["## Plan " + plan.id + " (revision " + Integer(plan.revision) + ")", ""];
    var tasks := PlanTasks(nodes, edges, plan.id);
    hide PlanTasks;
    if |tasks| == 0 {
      body := body + ["No tasks in this plan.", ""];
      return;
    }
    var ordered := OrderTasks(tasks, edges);
    var k := 0;
    ghost var title := body;
    ghost var first := sources;
    assert ordered[..0] == [];
    while k < |ordered|
      invariant 0 <= k <= |ordered|
      invariant body == title + TaskLines(nodes, edges, completed, ordered, k)
      invariant sources == first + TaskSources(nodes, ordered[..k])
    {
      var task := NodeAt(nodes, ordered[k]);
      assert ordered[..k + 1][..k] == ordered[..k];
      sources := sources + [Source(task.id, task.revision)];
      body := body + [TaskLine(nodes, edges, completed, ordered, ordered[k])];
      k := k + 1;
    }
    assert ordered[..k] == ordered;
    body := body + [""];
  }

  lemma BodyStart(nodes: map<string, Node>, edges: seq<Edge>, completed: set<string>, plans: seq<Node>)
    ensures Body(nodes, edges, completed, plans[..0]) == Title() && BodySources(nodes, edges, plans[..0]) == []
    ensures plans[..|plans|] == plans
  {
    hide PlanLines, PlanSources, Title;
    assert plans[..0] == [];
  }

  lemma BodyStep(nodes: map<string, Node>, edges: seq<Edge>, completed: set<string>, plans: seq<Node>, k: nat)
    requires k < |plans|
    ensures Body(nodes, edges, completed, plans[..k + 1])
            == Body(nodes, edges, completed, plans[..k]) + PlanLines(nodes, edges, completed, plans[k])
    ensures BodySources(nodes, edges, plans[..k + 1])
            == BodySources(nodes, edges, plans[..k]) + PlanSources(nodes, edges, plans[k])
  {
    hide PlanLines, PlanSources, Title;
    assert plans[..k + 1][..k] == plans[..k];
  }

  /** Rendering is a function of the current nodes, the active edges and the completed tasks. */
  method RenderTasks(graph: Graph, completed: set<string>, digest: Digest) returns (doc: Document)
    ensures doc == TasksDocument(CurrentNodes(graph.nodes).at, ActiveEdges(graph.edges), completed, digest)
  {
    hide DocumentOf, PlanLines, PlanSources, SortedBy, NodesByType, CurrentNodes, ActiveEdges, Proper, PlanTasks;
    hide Body, BodySources, NodesOfType;
    var current := CurrentNodeMap(graph.nodes);
    var edges := ActiveEdges(graph.edges);
    var plans := NodesOfType(current, ExecutionPlan);
    NodesOfTypeIsByType(current, ExecutionPlan);
    var body, sources: seq<Source> := Title(), [];
    if |plans| == 0 {
      doc := BuildDocument("tasks", sources, body + ["No execution plan recorded yet."], digest);
      return;
    }
    var k := 0;
    BodyStart(current.at, edges, completed, plans);
    while k < |plans|
      invariant 0 <= k <= |plans|
      invariant body == Body(current.at, edges, completed, plans[..k])
      invariant sources == BodySources(current.at, edges, plans[..k])
    {
      var more, lines := RenderPlan(current.at, edges, completed, plans[k]);
      BodyStep(current.at, edges, completed, plans, k);
      sources := sources + more;
      body := body + lines;
      k := k + 1;
    }
    assert plans[..k] == plans;
    doc := BuildDocument("tasks", sources, body, digest);
  }

  /** The document, its sources and its digest input do not depend on the order of the graph's records. */
  lemma RenderForgetsRecordOrder(a: Graph, b: Graph, completed: set<string>, digest: Digest)
    requires multiset(a.nodes) == multiset(b.nodes) && DistinctRevisions(a.nodes)
    requires multiset(a.edges) == multiset(b.edges) && DistinctBy(a.edges, EdgeId)
    ensures TasksDocument(CurrentNodes(a.nodes).at, ActiveEdges(a.edges), completed, digest)
            == TasksDocument(CurrentNodes(b.nodes).at, ActiveEdges(b.edges), completed, digest)
  {
    hide TasksDocument, Latest, ActiveEdges;
    LatestForgetsOrder(a.nodes, b.nodes);
    ActiveEdgesForgetOrder(a.edges, b.edges);
  }

  /**
   In a plan without cycles that lists no task twice, every dependency on a task of the plan
   carries a smaller number.
   */
  lemma DependenciesHaveSmallerNumbers(nodes: map<string, Node>, edges: seq<Edge>, plan: string, i: nat, j: nat,
                                       e: Edge)
    requires var ids := PlanTasks(nodes, edges, plan); Distinct(ids) && Acyclic(Ids(ids), Dependencies(edges, ids))
    requires var ordered := PlanOrder(nodes, edges, plan);
             && i < |ordered| && j < |ordered|
             && e in edges && e.kind == DependsOn && e.source == ordered[i] && e.target == ordered[j]
    ensures j < i
  {
    hide OrderOf, OrderSpec, Acyclic, PlanTasks;
    var ids, ordered := PlanTasks(nodes, edges, plan), PlanOrder(nodes, edges, plan);
    var deps := Dependencies(edges, ids);
    DistinctOrder(ids, edges);
    assert forall p :: p in deps ==> p.1 in Ids(ids);
    OrderIsLeastTopological(Ids(ids), deps);
    assert ordered[i] in Ids(ordered) && ordered[j] in Ids(ordered);
    assert BetweenMembers(e, ids) && (e.source, e.target) in deps;
    var k :| 0 <= k < i && ordered[k] == e.target;
    assert Same(ordered[k]) == Same(ordered[j]);
  }
}
