/**
 * The control-flow graph the Rust processor builds: a directed multigraph
 * (parallel edges allowed) of typed nodes, in the manner of a petgraph
 * `StableDiGraph`. A removed node takes its incident edges with it. Here
 * node indices are handed out in increasing order and never reused, whereas
 * a `StableDiGraph` gives a new node the slot of the node removed last, so
 * the numbers of nodes added after a removal differ from the library's. Edges are kept in insertion
 * order; the graph lists a node's edges newest first, so the queries below
 * search the edge sequence from its end.
 */
module CfgGraph {
  import opened Wrappers

  datatype ControlType = BreakControl | YieldControl | ReturnControl | ContinueControl

  datatype NodeType =
    | SourceNode(name: Option<string>)
    | SinkNode(name: Option<string>)
    | StatementNode(statement: string)
    | ControlNode(control: ControlType)
    | DecisionNode(decision: string)
    | ExceptionNode(exceptionStatement: string)
    | LabelNode

  datatype Node = Node(nodeLabel: Option<string>, nodeType: NodeType)

  datatype Edge =
    | StatementEdge
    | DecisionEdge(direction: bool)
    | ExceptionEdge(exception: string)
    | LabelNext
    | LabelBreak
    | LabelContinue

  datatype GraphEdge = GraphEdge(source: nat, target: nat, weight: Edge)

  datatype Graph = Graph(nodes: map<nat, Node>, edges: seq<GraphEdge>, nextIndex: nat)

  const EmptyGraph: Graph := Graph(map[], [], 0)

  /** Every index is below the next fresh one and every edge joins two present nodes. */
  predicate Valid(g: Graph)
  {
    && (forall n :: n in g.nodes ==> n < g.nextIndex)
    && (forall i :: 0 <= i < |g.edges| ==> g.edges[i].source in g.nodes && g.edges[i].target in g.nodes)
  }

  /** The graph with `node` added under the fresh index `g.nextIndex`. */
  function AddNode(g: Graph, node: Node): (r: Graph)
    ensures Valid(g) ==> Valid(r)
    ensures r.nodes == g.nodes[g.nextIndex := node] && r.edges == g.edges && r.nextIndex == g.nextIndex + 1
  {
    Graph(g.nodes[g.nextIndex := node], g.edges, g.nextIndex + 1)
  }

  /** The graph with one more edge; both endpoints must be present, as petgraph panics otherwise. */
  function AddEdge(g: Graph, source: nat, target: nat, weight: Edge): (r: Graph)
    requires source in g.nodes && target in g.nodes
    ensures Valid(g) ==> Valid(r)
    ensures r.nodes == g.nodes && r.nextIndex == g.nextIndex
    ensures r.edges == g.edges + [GraphEdge(source, target, weight)]
  {
    g.(edges := g.edges + [GraphEdge(source, target, weight)])
  }

  /** The edges that do not touch `n`, in their original order. */
  function WithoutNode(es: seq<GraphEdge>, n: nat): (r: seq<GraphEdge>)
    ensures forall e :: e in r <==> e in es && e.source != n && e.target != n
    ensures |r| <= |es|
  {
    if es == [] then []
    else WithoutNode(es[..|es| - 1], n)
         + (if es[|es| - 1].source != n && es[|es| - 1].target != n then [es[|es| - 1]] else [])
  }

  /** The graph with `n` and every edge incident to it removed. */
  function RemoveNode(g: Graph, n: nat): (r: Graph)
    ensures Valid(g) ==> Valid(r)
    ensures r.nodes == g.nodes - {n} && r.nextIndex == g.nextIndex
    ensures forall e :: e in r.edges <==> e in g.edges && e.source != n && e.target != n
  {
    var es := WithoutNode(g.edges, n);
    assert forall i :: 0 <= i < |es| ==> es[i] in g.edges;
    Graph(g.nodes - {n}, es, g.nextIndex)
  }

  /** The edges into `n`, newest first, as (source, weight) pairs. */
  function Incoming(es: seq<GraphEdge>, n: nat): (r: seq<(nat, Edge)>)
    ensures forall p :: p in r <==> GraphEdge(p.0, n, p.1) in es
    ensures |r| <= |es|
  {
    if es == [] then []
    else
      var e := es[|es| - 1];
      (if e.target == n then [(e.source, e.weight)] else []) + Incoming(es[..|es| - 1], n)
  }

  /** The targets of the edges out of `n`, newest first. */
  function OutNeighbors(es: seq<GraphEdge>, n: nat): (r: seq<nat>)
    ensures forall m :: m in r <==> exists i :: 0 <= i < |es| && es[i].source == n && es[i].target == m
  {
    if es == [] then []
    else
      var e := es[|es| - 1];
      assert forall i :: 0 <= i < |es| - 1 ==> es[..|es| - 1][i] == es[i];
      (if e.source == n then [e.target] else []) + OutNeighbors(es[..|es| - 1], n)
  }

  /** The target of the newest edge out of `n` whose weight is `w`, if there is one. */
  function FindOut(es: seq<GraphEdge>, n: nat, w: Edge): (r: Option<nat>)
    ensures r.Some? ==> GraphEdge(n, r.value, w) in es
    ensures r.None? ==> forall t :: GraphEdge(n, t, w) !in es
  {
    if es == [] then None
    else if es[|es| - 1].source == n && es[|es| - 1].weight == w then Some(es[|es| - 1].target)
    else
      assert forall e :: e in es ==> e == es[|es| - 1] || e in es[..|es| - 1];
      FindOut(es[..|es| - 1], n, w)
  }

  /** Edges appended after `es` that leave other nodes do not change what `FindOut` finds for `n`. */
  lemma {:induction false} FindOutAppend(es: seq<GraphEdge>, extra: seq<GraphEdge>, n: nat, w: Edge)
    requires forall i :: 0 <= i < |extra| ==> extra[i].source != n
    ensures FindOut(es + extra, n, w) == FindOut(es, n, w)
    decreases |extra|
  {
    if extra != [] {
      var all := es + extra;
      assert all[|all| - 1] == extra[|extra| - 1];
      assert all[..|all| - 1] == es + extra[..|extra| - 1];
      FindOutAppend(es, extra[..|extra| - 1], n, w);
    } else {
      assert es + extra == es;
    }
  }

  /** The edges `sources` would have after being moved to `target`, in the same order. */
  function Redirected(sources: seq<(nat, Edge)>, target: nat): (r: seq<GraphEdge>)
    ensures |r| == |sources|
    ensures forall i :: 0 <= i < |r| ==> r[i] == GraphEdge(sources[i].0, target, sources[i].1)
  {
    if sources == [] then []
    else Redirected(sources[..|sources| - 1], target)
         + [GraphEdge(sources[|sources| - 1].0, target, sources[|sources| - 1].1)]
  }

  /**
   * Moving the incoming edges of `from` to `to` gives `to` one edge from each
   * source of an edge into `from`, with that edge's weight, and nothing else.
   */
  lemma RedirectedIncoming(es: seq<GraphEdge>, from: nat, to: nat)
    ensures forall e :: e in Redirected(Incoming(es, from), to) <==>
                          e.target == to && GraphEdge(e.source, from, e.weight) in es
    ensures |Redirected(Incoming(es, from), to)| == |Incoming(es, from)|
  {
    var inc := Incoming(es, from);
    var red := Redirected(inc, to);
    forall e: GraphEdge | e in red
      ensures e.target == to && GraphEdge(e.source, from, e.weight) in es
    {
      var i :| 0 <= i < |red| && red[i] == e;
      assert inc[i] in inc;
    }
    forall e: GraphEdge | e.target == to && GraphEdge(e.source, from, e.weight) in es
      ensures e in red
    {
      assert (e.source, e.weight) in inc;
      var i :| 0 <= i < |inc| && inc[i] == (e.source, e.weight);
      assert red[i] == e;
    }
  }

  /** The sources of the edges into a node of a valid graph are present. */
  lemma IncomingPresent(g: Graph, n: nat)
    requires Valid(g)
    ensures forall p :: p in Incoming(g.edges, n) ==> p.0 in g.nodes
  {
    forall p | p in Incoming(g.edges, n)
      ensures p.0 in g.nodes
    {
      var i :| 0 <= i < |g.edges| && g.edges[i] == GraphEdge(p.0, n, p.1);
    }
  }

  /** The neighbours of a node of a valid graph are present. */
  lemma OutNeighborsPresent(g: Graph, n: nat)
    requires Valid(g)
    ensures forall m :: m in OutNeighbors(g.edges, n) ==> m in g.nodes
  {
  }

  /** A found edge target of a valid graph is present. */
  lemma FindOutPresent(g: Graph, n: nat, w: Edge)
    requires Valid(g)
    ensures FindOut(g.edges, n, w).Some? ==> FindOut(g.edges, n, w).value in g.nodes
  {
    var r := FindOut(g.edges, n, w);
    if r.Some? {
      var i :| 0 <= i < |g.edges| && g.edges[i] == GraphEdge(n, r.value, w);
    }
  }

  /** `g1` keeps every node of `g0` unchanged and hands out indices beyond those of `g0`. */
  predicate Grows(g0: Graph, g1: Graph)
  {
    && g0.nextIndex <= g1.nextIndex
    && forall n :: n in g0.nodes ==> n in g1.nodes && g1.nodes[n] == g0.nodes[n]
  }

  lemma GrowsTrans(g0: Graph, g1: Graph, g2: Graph)
    requires Grows(g0, g1) && Grows(g1, g2)
    ensures Grows(g0, g2)
  {
  }

  /** `n` is a node of `g1` created after `g0` and is not a sink. */
  predicate NewNode(g0: Graph, g1: Graph, n: nat)
  {
    n in g1.nodes && n >= g0.nextIndex && !g1.nodes[n].nodeType.SinkNode?
  }
}
