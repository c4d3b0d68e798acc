/**
 * The flow graph the builder works on: a directed graph that allows self
 * loops but never two edges between the same ordered pair of vertices.
 * Adding an edge between vertices that are already joined changes nothing;
 * adding an existing vertex keeps the stored one; removing a vertex removes
 * the edges at it. Edges are kept in insertion order, which is the order in
 * which the graph hands out a vertex's incoming and outgoing edges.
 */
module FlowGraph {
  import opened Wrappers
  import opened FlowNodes

  /** An edge; `flowCondition` is its branch tag, Some(true) or Some(false) out of a decision. */
  datatype FlowEdge = FlowEdge(source: Key, target: Key, flowCondition: Option<bool>)

  datatype Graph = Graph(vertices: map<Key, VertexData>, edges: seq<FlowEdge>)

  const EmptyGraph: Graph := Graph(map[], [])

  /** The data of a vertex created without a label. */
  const Unlabelled: VertexData := VertexData(None, map[])

  predicate Linked(es: seq<FlowEdge>, u: Key, w: Key)
  {
    exists e | e in es :: e.source == u && e.target == w
  }

  /** No two edges join the same ordered pair. */
  predicate SimpleEdges(es: seq<FlowEdge>)
  {
    forall i, j | 0 <= i < j < |es| :: es[i].source != es[j].source || es[i].target != es[j].target
  }

  predicate Valid(g: Graph)
  {
    && (forall e | e in g.edges :: e.source in g.vertices && e.target in g.vertices)
    && SimpleEdges(g.edges)
  }

  /** No edge of `es` starts or ends at `k`. */
  predicate Untouched(es: seq<FlowEdge>, k: Key)
  {
    forall e | e in es :: e.source != k && e.target != k
  }

  // Selecting edges

  datatype Selector = From(k: Key) | Into(k: Key) | NotFrom(k: Key) | NotAt(k: Key) | Except(x: FlowEdge) | Tagged(c: Option<bool>)

  predicate Keeps(f: Selector, e: FlowEdge)
  {
    match f
    case From(k) => e.source == k
    case Into(k) => e.target == k
    case NotFrom(k) => e.source != k
    case NotAt(k) => e.source != k && e.target != k
    case Except(x) => e != x
    case Tagged(c) => e.flowCondition == c
  }

  /** The edges of `es` that `f` keeps, in their order. */
  function Select(es: seq<FlowEdge>, f: Selector): (r: seq<FlowEdge>)
    ensures forall e {:trigger e in r} :: e in r <==> e in es && Keeps(f, e)
    ensures |r| <= |es|
  {
    if |es| == 0 then [] else (if Keeps(f, es[0]) then [es[0]] else []) + Select(es[1..], f)
  }

  lemma {:induction false} SelectAppend(a: seq<FlowEdge>, b: seq<FlowEdge>, f: Selector)
    ensures Select(a + b, f) == Select(a, f) + Select(b, f)
  {
    if |a| > 0 {
      assert (a + b)[1..] == a[1..] + b;
      SelectAppend(a[1..], b, f);
    } else {
      assert a + b == b;
    }
  }

  lemma {:induction false} SelectAll(es: seq<FlowEdge>, f: Selector)
    requires forall e | e in es :: Keeps(f, e)
    ensures Select(es, f) == es
  {
    if |es| > 0 {
      SelectAll(es[1..], f);
    }
  }

  lemma ConsSimple(x: FlowEdge, es: seq<FlowEdge>)
    requires SimpleEdges(es) && !Linked(es, x.source, x.target)
    ensures SimpleEdges([x] + es)
  {
    var xs := [x] + es;
    forall i, j | 0 <= i < j < |xs|
      ensures xs[i].source != xs[j].source || xs[i].target != xs[j].target
    {
      if i > 0 {
        assert xs[i] == es[i - 1] && xs[j] == es[j - 1];
      } else {
        assert xs[j] in es;
      }
    }
  }

  lemma {:induction false} SelectSimple(es: seq<FlowEdge>, f: Selector)
    requires SimpleEdges(es)
    ensures SimpleEdges(Select(es, f))
  {
    if |es| > 0 {
      var tail := es[1..];
      assert SimpleEdges(tail) by {
        forall i, j | 0 <= i < j < |tail|
          ensures tail[i].source != tail[j].source || tail[i].target != tail[j].target
        {
          assert tail[i] == es[i + 1] && tail[j] == es[j + 1];
        }
      }
      SelectSimple(tail, f);
      if Keeps(f, es[0]) {
        forall e | e in Select(tail, f) ensures e.source != es[0].source || e.target != es[0].target {
          var j :| 0 <= j < |tail| && tail[j] == e;
          assert es[j + 1] == e;
        }
        ConsSimple(es[0], Select(tail, f));
      }
    }
  }

  /** Two edges out of one vertex differ in their targets. */
  lemma SimpleFanOut(es: seq<FlowEdge>, k: Key)
    requires SimpleEdges(es)
    ensures var out := Select(es, From(k));
            forall i, j | 0 <= i < j < |out| :: out[i].target != out[j].target
  {
    SelectSimple(es, From(k));
    var out := Select(es, From(k));
    forall i, j | 0 <= i < j < |out| ensures out[i].target != out[j].target {
      assert out[i] in out && out[j] in out;
    }
  }

  /** Two edges into one vertex differ in their sources. */
  lemma SimpleFanIn(es: seq<FlowEdge>, k: Key)
    requires SimpleEdges(es)
    ensures var ins := Select(es, Into(k));
            forall i, j | 0 <= i < j < |ins| :: ins[i].source != ins[j].source
  {
    SelectSimple(es, Into(k));
    var ins := Select(es, Into(k));
    forall i, j | 0 <= i < j < |ins| ensures ins[i].source != ins[j].source {
      assert ins[i] in ins && ins[j] in ins;
    }
  }

  // Operations

  function Outgoing(g: Graph, k: Key): seq<FlowEdge>
  {
    Select(g.edges, From(k))
  }

  function Incoming(g: Graph, k: Key): seq<FlowEdge>
  {
    Select(g.edges, Into(k))
  }

  /** `addVertex`: a vertex equal to a stored one leaves the stored one in place. */
  function AddVertex(g: Graph, k: Key, d: VertexData): (r: Graph)
    ensures r.edges == g.edges && k in r.vertices
    ensures k in g.vertices ==> r == g
    ensures k !in g.vertices ==> r.vertices == g.vertices[k := d]
    ensures Valid(g) ==> Valid(r)
  {
    if k in g.vertices then g else Graph(g.vertices[k := d], g.edges)
  }

  /** `addEdge`: vertices already joined stay joined by their old edge. */
  function AddEdge(g: Graph, u: Key, w: Key, c: Option<bool>): (r: Graph)
    requires u in g.vertices && w in g.vertices
    ensures r.vertices == g.vertices && Linked(r.edges, u, w)
    ensures Linked(g.edges, u, w) ==> r == g
    ensures !Linked(g.edges, u, w) ==> r.edges == g.edges + [FlowEdge(u, w, c)]
    ensures Valid(g) ==> Valid(r)
  {
    if Linked(g.edges, u, w) then g
    else
      var es := g.edges + [FlowEdge(u, w, c)];
      assert SimpleEdges(g.edges) ==> SimpleEdges(es) by {
        if SimpleEdges(g.edges) {
          forall i, j | 0 <= i < j < |es| ensures es[i].source != es[j].source || es[i].target != es[j].target {
            if j == |g.edges| {
              assert es[i] in g.edges;
            }
          }
        }
      }
      Graph(g.vertices, es)
  }

  function RemoveEdge(g: Graph, e: FlowEdge): (r: Graph)
    ensures r.vertices == g.vertices
    ensures forall x {:trigger x in r.edges} :: x in r.edges <==> x in g.edges && x != e
    ensures Valid(g) ==> Valid(r)
  {
    SelectSimpleIf(g.edges, Except(e));
    Graph(g.vertices, Select(g.edges, Except(e)))
  }

  /** `removeVertex`, which takes the vertex's edges with it. */
  function RemoveVertex(g: Graph, k: Key): (r: Graph)
    ensures r.vertices == g.vertices - {k}
    ensures forall x {:trigger x in r.edges} :: x in r.edges <==> x in g.edges && x.source != k && x.target != k
    ensures Valid(g) ==> Valid(r)
  {
    SelectSimpleIf(g.edges, NotAt(k));
    Graph(g.vertices - {k}, Select(g.edges, NotAt(k)))
  }

  /** `removeAllEdges(outgoingEdgesOf(k))`. */
  function RemoveOutgoing(g: Graph, k: Key): (r: Graph)
    ensures r.vertices == g.vertices
    ensures forall x {:trigger x in r.edges} :: x in r.edges <==> x in g.edges && x.source != k
    ensures Valid(g) ==> Valid(r)
  {
    SelectSimpleIf(g.edges, NotFrom(k));
    Graph(g.vertices, Select(g.edges, NotFrom(k)))
  }

  lemma SelectSimpleIf(es: seq<FlowEdge>, f: Selector)
    ensures SimpleEdges(es) ==> SimpleEdges(Select(es, f))
  {
    if SimpleEdges(es) {
      SelectSimple(es, f);
    }
  }

  // Rerouting

  /**
   * For each edge of `ins` whose source has no edge to `dst` in `es`, a copy
   * that ends at `dst` instead and keeps the branch tag, in the order of `ins`.
   */
  function Redirected(es: seq<FlowEdge>, ins: seq<FlowEdge>, dst: Key): seq<FlowEdge>
    decreases |ins|
  {
    if |ins| == 0 then []
    else
      var e := ins[|ins| - 1];
      var front := ins[..|ins| - 1];
      Redirected(es, front, dst) + (if Linked(es, e.source, dst) then [] else [FlowEdge(e.source, dst, e.flowCondition)])
  }

  /** What the copies are: where they lead, what they copy, and that none is missing. */
  lemma {:induction false} RedirectedMembers(es: seq<FlowEdge>, ins: seq<FlowEdge>, dst: Key)
    ensures forall x | x in Redirected(es, ins, dst) :: x.target == dst && !Linked(es, x.source, dst)
    ensures forall x | x in Redirected(es, ins, dst) :: exists e | e in ins :: e.source == x.source && e.flowCondition == x.flowCondition
    ensures forall e | e in ins && !Linked(es, e.source, dst) :: FlowEdge(e.source, dst, e.flowCondition) in Redirected(es, ins, dst)
    decreases |ins|
  {
    if |ins| > 0 {
      var front := ins[..|ins| - 1];
      RedirectedMembers(es, front, dst);
      assert forall x | x in front :: x in ins;
      assert forall x | x in ins :: x in front || x == ins[|ins| - 1];
    }
  }

  /**
   * For each edge of `outs` whose target `src` has no edge to yet, a copy that
   * starts at `src` instead and keeps the branch tag, in the order of `outs`.
   */
  function Resourced(es: seq<FlowEdge>, outs: seq<FlowEdge>, src: Key): seq<FlowEdge>
    decreases |outs|
  {
    if |outs| == 0 then []
    else
      var e := outs[|outs| - 1];
      var front := outs[..|outs| - 1];
      Resourced(es, front, src) + (if Linked(es, src, e.target) then [] else [FlowEdge(src, e.target, e.flowCondition)])
  }

  /** What the copies are: where they lead, what they copy, and that none is missing. */
  lemma {:induction false} ResourcedMembers(es: seq<FlowEdge>, outs: seq<FlowEdge>, src: Key)
    ensures forall x | x in Resourced(es, outs, src) :: x.source == src && !Linked(es, src, x.target)
    ensures forall x | x in Resourced(es, outs, src) :: exists e | e in outs :: e.target == x.target && e.flowCondition == x.flowCondition
    ensures forall e | e in outs && !Linked(es, src, e.target) :: FlowEdge(src, e.target, e.flowCondition) in Resourced(es, outs, src)
    decreases |outs|
  {
    if |outs| > 0 {
      var front := outs[..|outs| - 1];
      ResourcedMembers(es, front, src);
      assert forall x | x in front :: x in outs;
      assert forall x | x in outs :: x in front || x == outs[|outs| - 1];
    }
  }

  /** The graph after `rerouteIncomingEdges(src, dst)`. */
  function RerouteIncoming(g: Graph, src: Key, dst: Key): Graph
  {
    Graph(g.vertices, g.edges + Redirected(g.edges, Incoming(g, src), dst))
  }

  /** The graph after `rerouteOutgoingEdges(src, dst)`. */
  function RerouteOutgoing(g: Graph, src: Key, dst: Key): Graph
  {
    Graph(g.vertices, g.edges + Resourced(g.edges, Outgoing(g, src), dst))
  }

  /**
   * Rerouting the incoming edges of `src` to `dst` keeps every old edge and
   * every vertex and leaves the graph valid.
   */
  lemma RerouteIncomingValid(g: Graph, src: Key, dst: Key)
    requires Valid(g) && src in g.vertices && dst in g.vertices
    ensures Valid(RerouteIncoming(g, src, dst))
    ensures RerouteIncoming(g, src, dst).vertices == g.vertices
    ensures RerouteIncoming(g, src, dst).edges[..|g.edges|] == g.edges
  {
    var ins := Incoming(g, src);
    var add := Redirected(g.edges, ins, dst);
    RedirectedMembers(g.edges, ins, dst);
    SimpleFanIn(g.edges, src);
    assert ins == Select(g.edges, Into(src));
    RedirectedSimple(g.edges, ins, dst);
    AppendSimple(g.edges, add);
    var r := RerouteIncoming(g, src, dst);
    assert r.edges == g.edges + add;
    forall e | e in r.edges ensures e.source in g.vertices && e.target in g.vertices {
      if e in add {
        var x :| x in ins && x.source == e.source && x.flowCondition == e.flowCondition;
        assert x in g.edges;
      }
    }
  }

  /**
   * After rerouting the incoming edges of `src` to `dst`, every predecessor of
   * `src` is joined to `dst`, by a copy with the same branch tag where it was
   * not joined before, and every new edge is such a copy.
   */
  lemma RerouteIncomingMeaning(g: Graph, src: Key, dst: Key)
    ensures forall e | e in Incoming(g, src) :: Linked(RerouteIncoming(g, src, dst).edges, e.source, dst)
    ensures forall e | e in Incoming(g, src) && !Linked(g.edges, e.source, dst) ::
              FlowEdge(e.source, dst, e.flowCondition) in RerouteIncoming(g, src, dst).edges
    ensures forall x | x in RerouteIncoming(g, src, dst).edges && x !in g.edges ::
              x.target == dst && exists e | e in Incoming(g, src) :: e.source == x.source && e.flowCondition == x.flowCondition
  {
    var ins := Incoming(g, src);
    var add := Redirected(g.edges, ins, dst);
    RedirectedMembers(g.edges, ins, dst);
    var r := RerouteIncoming(g, src, dst);
    assert r.edges == g.edges + add;
    forall e | e in ins ensures Linked(r.edges, e.source, dst) {
      if Linked(g.edges, e.source, dst) {
        var x :| x in g.edges && x.source == e.source && x.target == dst;
        assert x in r.edges;
      } else {
        assert FlowEdge(e.source, dst, e.flowCondition) in add;
      }
    }
    forall x | x in r.edges && x !in g.edges
      ensures x.target == dst && exists e | e in ins :: e.source == x.source && e.flowCondition == x.flowCondition
    {
      assert x in add;
    }
  }

  lemma RerouteOutgoingValid(g: Graph, src: Key, dst: Key)
    requires Valid(g) && src in g.vertices && dst in g.vertices
    ensures Valid(RerouteOutgoing(g, src, dst))
    ensures RerouteOutgoing(g, src, dst).vertices == g.vertices
    ensures RerouteOutgoing(g, src, dst).edges[..|g.edges|] == g.edges
  {
    var outs := Outgoing(g, src);
    var add := Resourced(g.edges, outs, dst);
    ResourcedMembers(g.edges, outs, dst);
    SimpleFanOut(g.edges, src);
    assert outs == Select(g.edges, From(src));
    ResourcedSimple(g.edges, outs, dst);
    AppendSimple(g.edges, add);
    var r := RerouteOutgoing(g, src, dst);
    assert r.edges == g.edges + add;
    forall e | e in r.edges ensures e.source in g.vertices && e.target in g.vertices {
      if e in add {
        var x :| x in outs && x.target == e.target && x.flowCondition == e.flowCondition;
        assert x in g.edges;
      }
    }
  }

  /** Rerouting the outgoing edges of `src` to `dst`, the mirror image. */
  lemma RerouteOutgoingMeaning(g: Graph, src: Key, dst: Key)
    ensures forall e | e in Outgoing(g, src) :: Linked(RerouteOutgoing(g, src, dst).edges, dst, e.target)
    ensures forall e | e in Outgoing(g, src) && !Linked(g.edges, dst, e.target) ::
              FlowEdge(dst, e.target, e.flowCondition) in RerouteOutgoing(g, src, dst).edges
    ensures forall x | x in RerouteOutgoing(g, src, dst).edges && x !in g.edges ::
              x.source == dst && exists e | e in Outgoing(g, src) :: e.target == x.target && e.flowCondition == x.flowCondition
  {
    var outs := Outgoing(g, src);
    var add := Resourced(g.edges, outs, dst);
    ResourcedMembers(g.edges, outs, dst);
    var r := RerouteOutgoing(g, src, dst);
    assert r.edges == g.edges + add;
    forall e | e in outs ensures Linked(r.edges, dst, e.target) {
      if Linked(g.edges, dst, e.target) {
        var x :| x in g.edges && x.source == dst && x.target == e.target;
        assert x in r.edges;
      } else {
        assert FlowEdge(dst, e.target, e.flowCondition) in add;
      }
    }
    forall x | x in r.edges && x !in g.edges
      ensures x.source == dst && exists e | e in outs :: e.target == x.target && e.flowCondition == x.flowCondition
    {
      assert x in add;
    }
  }

  /** The copies join distinct pairs when the edges they copy come from distinct sources. */
  lemma {:induction false} RedirectedSimple(es: seq<FlowEdge>, ins: seq<FlowEdge>, dst: Key)
    requires forall i, j | 0 <= i < j < |ins| :: ins[i].source != ins[j].source
    ensures SimpleEdges(Redirected(es, ins, dst))
    ensures forall x | x in Redirected(es, ins, dst) :: exists i | 0 <= i < |ins| :: ins[i].source == x.source
    decreases |ins|
  {
    if |ins| > 0 {
      var front := ins[..|ins| - 1];
      var e := ins[|ins| - 1];
      RedirectedSimple(es, front, dst);
      RedirectedMembers(es, front, dst);
      var a := Redirected(es, front, dst);
      if !Linked(es, e.source, dst) {
        var x := FlowEdge(e.source, dst, e.flowCondition);
        var r := a + [x];
        forall i, j | 0 <= i < j < |r| ensures r[i].source != r[j].source || r[i].target != r[j].target {
          if j == |a| {
            assert r[i] in a;
            var k :| 0 <= k < |front| && front[k].source == r[i].source;
            assert ins[k] == front[k];
          }
        }
        forall y | y in r ensures exists i | 0 <= i < |ins| :: ins[i].source == y.source {
          if y in a {
            var k :| 0 <= k < |front| && front[k].source == y.source;
            assert ins[k] == front[k];
          } else {
            assert ins[|ins| - 1].source == y.source;
          }
        }
      } else {
        forall y | y in a ensures exists i | 0 <= i < |ins| :: ins[i].source == y.source {
          var k :| 0 <= k < |front| && front[k].source == y.source;
          assert ins[k] == front[k];
        }
      }
    }
  }

  lemma {:induction false} ResourcedSimple(es: seq<FlowEdge>, outs: seq<FlowEdge>, src: Key)
    requires forall i, j | 0 <= i < j < |outs| :: outs[i].target != outs[j].target
    ensures SimpleEdges(Resourced(es, outs, src))
    ensures forall x | x in Resourced(es, outs, src) :: exists i | 0 <= i < |outs| :: outs[i].target == x.target
    decreases |outs|
  {
    if |outs| > 0 {
      var front := outs[..|outs| - 1];
      var e := outs[|outs| - 1];
      ResourcedSimple(es, front, src);
      ResourcedMembers(es, front, src);
      var a := Resourced(es, front, src);
      if !Linked(es, src, e.target) {
        var x := FlowEdge(src, e.target, e.flowCondition);
        var r := a + [x];
        forall i, j | 0 <= i < j < |r| ensures r[i].source != r[j].source || r[i].target != r[j].target {
          if j == |a| {
            assert r[i] in a;
            var k :| 0 <= k < |front| && front[k].target == r[i].target;
            assert outs[k] == front[k];
          }
        }
        forall y | y in r ensures exists i | 0 <= i < |outs| :: outs[i].target == y.target {
          if y in a {
            var k :| 0 <= k < |front| && front[k].target == y.target;
            assert outs[k] == front[k];
          } else {
            assert outs[|outs| - 1].target == y.target;
          }
        }
      } else {
        forall y | y in a ensures exists i | 0 <= i < |outs| :: outs[i].target == y.target {
          var k :| 0 <= k < |front| && front[k].target == y.target;
          assert outs[k] == front[k];
        }
      }
    }
  }

  /** Appending edges that join pairs the old edges do not join keeps the edges simple. */
  lemma AppendSimple(a: seq<FlowEdge>, b: seq<FlowEdge>)
    requires SimpleEdges(a) && SimpleEdges(b)
    requires forall x | x in b :: !Linked(a, x.source, x.target)
    ensures SimpleEdges(a + b)
  {
    var r := a + b;
    forall i, j | 0 <= i < j < |r| ensures r[i].source != r[j].source || r[i].target != r[j].target {
      if j >= |a| {
        if i >= |a| {
          assert r[i] == b[i - |a|] && r[j] == b[j - |a|];
        } else {
          assert r[i] in a && r[j] in b;
        }
      }
    }
  }

  lemma RedirectedUnfold(es: seq<FlowEdge>, ins: seq<FlowEdge>, i: nat, dst: Key)
    requires i < |ins|
    ensures Redirected(es, ins[..i + 1], dst)
            == Redirected(es, ins[..i], dst)
               + (if Linked(es, ins[i].source, dst) then [] else [FlowEdge(ins[i].source, dst, ins[i].flowCondition)])
  {
    assert ins[..i + 1][..i] == ins[..i];
    assert ins[..i + 1][i] == ins[i];
  }

  /** The copies of the first `i` edges into `dst` come from other vertices than the `i`-th. */
  lemma RedirectedAvoids(es: seq<FlowEdge>, ins: seq<FlowEdge>, i: nat, dst: Key)
    requires i < |ins| && (forall a, b | 0 <= a < b < |ins| :: ins[a].source != ins[b].source)
    ensures !Linked(Redirected(es, ins[..i], dst), ins[i].source, dst)
  {
    var front := ins[..i];
    RedirectedSimple(es, front, dst);
    forall x | x in Redirected(es, front, dst)
      ensures x.source != ins[i].source
    {
      var j :| 0 <= j < |front| && front[j].source == x.source;
      assert front[j] == ins[j];
    }
  }

  /** One step of rerouting incoming edges: the copy of the `i`-th edge extends the copies made so far. */
  lemma RedirectStep(g: Graph, ins: seq<FlowEdge>, i: nat, dst: Key)
    requires i < |ins| && (forall a, b | 0 <= a < b < |ins| :: ins[a].source != ins[b].source)
    requires ins[i].source in g.vertices && dst in g.vertices
    ensures AddEdge(Graph(g.vertices, g.edges + Redirected(g.edges, ins[..i], dst)), ins[i].source, dst, ins[i].flowCondition)
            == Graph(g.vertices, g.edges + Redirected(g.edges, ins[..i + 1], dst))
  {
    var e := ins[i];
    var done := Redirected(g.edges, ins[..i], dst);
    RedirectedUnfold(g.edges, ins, i, dst);
    RedirectedAvoids(g.edges, ins, i, dst);
    LinkedAppend(g.edges, done, e.source, dst);
    var x := [FlowEdge(e.source, dst, e.flowCondition)];
    assert g.edges + done + x == g.edges + (done + x);
  }

  lemma ResourcedUnfold(es: seq<FlowEdge>, outs: seq<FlowEdge>, i: nat, src: Key)
    requires i < |outs|
    ensures Resourced(es, outs[..i + 1], src)
            == Resourced(es, outs[..i], src)
               + (if Linked(es, src, outs[i].target) then [] else [FlowEdge(src, outs[i].target, outs[i].flowCondition)])
  {
    assert outs[..i + 1][..i] == outs[..i];
    assert outs[..i + 1][i] == outs[i];
  }

  /** The copies of the first `i` edges out of `src` go to other vertices than the `i`-th. */
  lemma ResourcedAvoids(es: seq<FlowEdge>, outs: seq<FlowEdge>, i: nat, src: Key)
    requires i < |outs| && (forall a, b | 0 <= a < b < |outs| :: outs[a].target != outs[b].target)
    ensures !Linked(Resourced(es, outs[..i], src), src, outs[i].target)
  {
    var front := outs[..i];
    ResourcedSimple(es, front, src);
    forall x | x in Resourced(es, front, src)
      ensures x.target != outs[i].target
    {
      var j :| 0 <= j < |front| && front[j].target == x.target;
      assert front[j] == outs[j];
    }
  }

  /** One step of rerouting outgoing edges. */
  lemma ResourceStep(g: Graph, outs: seq<FlowEdge>, i: nat, src: Key)
    requires i < |outs| && (forall a, b | 0 <= a < b < |outs| :: outs[a].target != outs[b].target)
    requires outs[i].target in g.vertices && src in g.vertices
    ensures AddEdge(Graph(g.vertices, g.edges + Resourced(g.edges, outs[..i], src)), src, outs[i].target, outs[i].flowCondition)
            == Graph(g.vertices, g.edges + Resourced(g.edges, outs[..i + 1], src))
  {
    var e := outs[i];
    var done := Resourced(g.edges, outs[..i], src);
    ResourcedUnfold(g.edges, outs, i, src);
    ResourcedAvoids(g.edges, outs, i, src);
    LinkedAppend(g.edges, done, src, e.target);
    var x := [FlowEdge(src, e.target, e.flowCondition)];
    assert g.edges + done + x == g.edges + (done + x);
  }

  lemma LinkedAppend(a: seq<FlowEdge>, b: seq<FlowEdge>, u: Key, w: Key)
    ensures Linked(a + b, u, w) <==> Linked(a, u, w) || Linked(b, u, w)
  {
    assert forall x | x in a + b :: x in a || x in b;
  }

  lemma {:induction false} SelectNone(es: seq<FlowEdge>, f: Selector)
    requires forall e | e in es :: !Keeps(f, e)
    ensures Select(es, f) == []
  {
    if |es| > 0 {
      assert es[0] in es;
      SelectNone(es[1..], f);
    }
  }

  /** Edges appended after a vertex had none are all the edges the vertex has. */
  lemma FreshSelect(es: seq<FlowEdge>, extra: seq<FlowEdge>, k: Key)
    requires Untouched(es, k)
    ensures Select(es + extra, From(k)) == Select(extra, From(k))
    ensures Select(es + extra, Into(k)) == Select(extra, Into(k))
  {
    SelectAppend(es, extra, From(k));
    SelectAppend(es, extra, Into(k));
    SelectNone(es, From(k));
    SelectNone(es, Into(k));
  }

  /** Two vertices one of which is missing from a valid graph are not joined in it. */
  lemma FreshNotLinked(g: Graph, u: Key, w: Key)
    requires Valid(g) && (u !in g.vertices || w !in g.vertices)
    ensures !Linked(g.edges, u, w)
  {
  }

  lemma NotLinkedExtra(base: seq<FlowEdge>, extra: seq<FlowEdge>, u: Key, w: Key)
    requires !Linked(base, u, w)
    requires forall x | x in extra :: x.source != u || x.target != w
    ensures !Linked(base + extra, u, w)
  {
    LinkedAppend(base, extra, u, w);
  }

  /** The selection of a one-edge sequence. */
  lemma SelectSingle(x: FlowEdge, f: Selector)
    ensures Select([x], f) == if Keeps(f, x) then [x] else []
  {
    assert [x][1..] == [];
  }

  /** How one `addEdge` changes the edges out of a vertex `k`. */
  lemma AddEdgeOutgoing(g: Graph, u: Key, w: Key, c: Option<bool>, k: Key)
    requires u in g.vertices && w in g.vertices
    ensures Outgoing(AddEdge(g, u, w, c), k)
            == if u == k && !Linked(g.edges, u, w) then Outgoing(g, k) + [FlowEdge(u, w, c)] else Outgoing(g, k)
  {
    if !Linked(g.edges, u, w) {
      SelectAppend(g.edges, [FlowEdge(u, w, c)], From(k));
      SelectSingle(FlowEdge(u, w, c), From(k));
    }
  }

  /** How one `addEdge` changes the edges into a vertex `k`. */
  lemma AddEdgeIncoming(g: Graph, u: Key, w: Key, c: Option<bool>, k: Key)
    requires u in g.vertices && w in g.vertices
    ensures Incoming(AddEdge(g, u, w, c), k)
            == if w == k && !Linked(g.edges, u, w) then Incoming(g, k) + [FlowEdge(u, w, c)] else Incoming(g, k)
  {
    if !Linked(g.edges, u, w) {
      SelectAppend(g.edges, [FlowEdge(u, w, c)], Into(k));
      SelectSingle(FlowEdge(u, w, c), Into(k));
    }
  }

  /** A vertex missing from a valid graph has no edges. */
  lemma AbsentNoEdges(g: Graph, k: Key)
    requires Valid(g) && k !in g.vertices
    ensures Outgoing(g, k) == [] && Incoming(g, k) == []
  {
    SelectNone(g.edges, From(k));
    SelectNone(g.edges, Into(k));
  }

  /** Selecting after appending edges the selector drops. */
  lemma SelectDropsAppended(base: seq<FlowEdge>, extra: seq<FlowEdge>, f: Selector)
    requires forall x | x in extra :: !Keeps(f, x)
    ensures Select(base + extra, f) == Select(base, f)
  {
    SelectAppend(base, extra, f);
    SelectNone(extra, f);
  }

  /** In a simple sequence, an edge is the only one joining its two ends. */
  lemma OnlyJoining(es: seq<FlowEdge>, x: FlowEdge)
    requires SimpleEdges(es) && x in es
    ensures !Linked(Select(es, Except(x)), x.source, x.target)
  {
    forall y | y in Select(es, Except(x))
      ensures y.source != x.source || y.target != x.target
    {
      var i :| 0 <= i < |es| && es[i] == y;
      var j :| 0 <= j < |es| && es[j] == x;
      assert i != j;
    }
  }

  /** Selecting after appending edges the selector keeps. */
  lemma SelectKeepsAppended(base: seq<FlowEdge>, extra: seq<FlowEdge>, f: Selector)
    requires forall x | x in extra :: Keeps(f, x)
    ensures Select(base + extra, f) == Select(base, f) + extra
  {
    SelectAppend(base, extra, f);
    SelectAll(extra, f);
  }

  // Facts used when the builder adds edges at a vertex it has just created.

  /** An edge at a vertex with no edges yet is appended. */
  lemma AddEdgeAppends(g: Graph, u: Key, w: Key, c: Option<bool>)
    requires u in g.vertices && w in g.vertices
    requires Untouched(g.edges, u) || Untouched(g.edges, w)
    ensures AddEdge(g, u, w, c).edges == g.edges + [FlowEdge(u, w, c)]
  {
  }

  /** A vertex that is not in a valid graph has no edges in it. */
  lemma AbsentUntouched(g: Graph, k: Key)
    requires Valid(g) && k !in g.vertices
    ensures Untouched(g.edges, k)
  {
  }

  /** The one edge out of a vertex: it is the vertex's only edge to its target. */
  lemma SoleOutgoing(g: Graph, k: Key, e: FlowEdge)
    requires Outgoing(g, k) == [e]
    ensures e in g.edges && e.source == k
    ensures forall x | x in g.edges && x.source == k :: x == e
  {
    assert e in Outgoing(g, k);
    forall x | x in g.edges && x.source == k ensures x == e {
      assert x in Outgoing(g, k);
    }
  }

  /** A vertex without outgoing edges is joined to nothing. */
  lemma NoOutgoingNotLinked(g: Graph, k: Key, w: Key)
    requires Outgoing(g, k) == []
    ensures !Linked(g.edges, k, w)
  {
    assert forall x | x in g.edges && x.source == k :: x in Outgoing(g, k);
  }

  /** Selecting edges joins no new pair. */
  lemma SelectNotLinked(es: seq<FlowEdge>, f: Selector, u: Key, w: Key)
    requires !Linked(es, u, w)
    ensures !Linked(Select(es, f), u, w)
  {
  }

  /** Successive `addEdge` calls, one for each edge of `es` in order. */
  function AddEdges(g: Graph, es: seq<FlowEdge>): (r: Graph)
    requires forall x | x in es :: x.source in g.vertices && x.target in g.vertices
    ensures r.vertices == g.vertices
    ensures Valid(g) ==> Valid(r)
    decreases |es|
  {
    if |es| == 0 then g
    else
      var x := es[|es| - 1];
      assert forall y | y in es[..|es| - 1] :: y in es;
      AddEdge(AddEdges(g, es[..|es| - 1]), x.source, x.target, x.flowCondition)
  }

  /** Edges that join pairs not yet joined, and pairwise different, are appended as they are. */
  lemma {:induction false} AddEdgesNew(g: Graph, es: seq<FlowEdge>)
    requires forall x | x in es :: x.source in g.vertices && x.target in g.vertices
    requires SimpleEdges(es) && forall x | x in es :: !Linked(g.edges, x.source, x.target)
    ensures AddEdges(g, es).edges == g.edges + es
    decreases |es|
  {
    if |es| > 0 {
      var front, x := es[..|es| - 1], es[|es| - 1];
      assert forall y | y in front :: y in es;
      AddEdgesNew(g, front);
      forall y | y in front ensures y.source != x.source || y.target != x.target {
        var i :| 0 <= i < |front| && front[i] == y;
        assert es[i] == y;
      }
      NotLinkedExtra(g.edges, front, x.source, x.target);
      assert g.edges + front + [x] == g.edges + es;
    }
  }

  /**
   * Edges each with an end that is not a vertex of `g` are not joined in `g`
   * followed by `extra`, when `extra` does not join them either.
   */
  lemma NewEdgesNotLinked(g: Graph, extra: seq<FlowEdge>, es: seq<FlowEdge>)
    requires Valid(g)
    requires forall x | x in es :: x.source !in g.vertices || x.target !in g.vertices
    requires forall x | x in es :: !Linked(extra, x.source, x.target)
    ensures forall x | x in es :: !Linked(g.edges + extra, x.source, x.target)
  {
    forall x | x in es ensures !Linked(g.edges + extra, x.source, x.target) {
      FreshNotLinked(g, x.source, x.target);
      LinkedAppend(g.edges, extra, x.source, x.target);
    }
  }
}
