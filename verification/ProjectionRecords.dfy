/** The graph records that projections read. */
module ProjectionRecords {
  import opened Options

  datatype EdgeKind = DependsOn | Contains | OtherEdge(name: string)

  datatype EdgeStatus = Proposed | Accepted | Inactive(name: string)

  datatype Edge = Edge(id: string, kind: EdgeKind, source: string, target: string, status: EdgeStatus)

  datatype NodeKind = ExecutionPlan | Task | OtherNode(name: string)

  /** `objective` is the plan extension's text, when the node has one; `rest` stands for every other field. */
  datatype Node = Node(id: string, kind: NodeKind, revision: int, tombstoned: bool, objective: Option<string>,
                       rest: string)

  datatype Graph = Graph(nodes: seq<Node>, edges: seq<Edge>)
}
