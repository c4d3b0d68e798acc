/**
 * The flow-graph builder: a visitor over one method's syntax tree that grows a
 * graph whose vertices are statements and branch conditions and whose edges
 * are the possible transfers of control, tagged true or false out of a
 * condition.
 *
 * Every statement is first a placeholder vertex with exactly one outgoing edge,
 * to what follows it. Visiting the statement replaces the placeholder by the
 * statement's own shape (a decision with its branches, a loop with its back
 * edge, a chain of statements), makes placeholders for the statements it
 * contains, visits those, and finally reroutes the edges into the placeholder
 * to where control really enters the statement.
 *
 * Children are visited in the order of JavaParser's generic visitor, which is
 * alphabetical by property name: an if visits its condition, else and then
 * branches in that order; a for loop its body, compare, initialisation and
 * update; a for-each its body, iterable and variable; while and do loops
 * their body, then their condition; a switch its entries, then its selector; a
 * switch entry its labels, then its statements.
 */
module AstToGraph {
  import opened Wrappers
  import opened JavaAst
  import opened FlowNodes
  import opened FlowGraph
  import opened GraphBuilderSupport

  /** The edges `addDecisionNode` gives a new decision vertex. */
  function DecisionEdges(d: Key, t: Key, f: Key): (r: seq<FlowEdge>)
    ensures forall x | x in r :: x.source == d
  {
    [FlowEdge(d, t, Some(true))] + (if f == t then [] else [FlowEdge(d, f, Some(false))])
  }

  /** The edges into a vertex of a valid graph come from distinct vertices of the graph. */
  lemma FanInFacts(g: Graph, k: Key)
    requires Valid(g)
    ensures var ins := Incoming(g, k);
            && (forall a, b | 0 <= a < b < |ins| :: ins[a].source != ins[b].source)
            && (forall j | 0 <= j < |ins| :: ins[j].source in g.vertices)
  {
    var ins := Incoming(g, k);
    assert ins == Select(g.edges, Into(k));
    SimpleFanIn(g.edges, k);
    forall j | 0 <= j < |ins| ensures ins[j].source in g.vertices {
      assert ins[j] in ins;
    }
  }

  /** The edges out of a vertex of a valid graph go to distinct vertices of the graph. */
  lemma FanOutFacts(g: Graph, k: Key)
    requires Valid(g)
    ensures var outs := Outgoing(g, k);
            && (forall a, b | 0 <= a < b < |outs| :: outs[a].target != outs[b].target)
            && (forall j | 0 <= j < |outs| :: outs[j].target in g.vertices)
  {
    var outs := Outgoing(g, k);
    assert outs == Select(g.edges, From(k));
    SimpleFanOut(g.edges, k);
    forall j | 0 <= j < |outs| ensures outs[j].target in g.vertices {
      assert outs[j] in outs;
    }
  }

  /** `rerouteIncomingEdges`, a static method of the builder; the graph is passed in and returned. */
  method RerouteIncomingEdges(g: Graph, src: Key, dst: Key) returns (r: Graph)
    requires Valid(g) && src in g.vertices && dst in g.vertices
    ensures r == RerouteIncoming(g, src, dst)
  {
    var ins := Incoming(g, src);
    FanInFacts(g, src);
    r := g;
    var i := 0;
    while i < |ins|
      invariant 0 <= i <= |ins|
      invariant r == Graph(g.vertices, g.edges + Redirected(g.edges, ins[..i], dst))
    {
      RedirectStep(g, ins, i, dst);
      r := AddEdge(r, ins[i].source, dst, ins[i].flowCondition);
      i := i + 1;
    }
    assert ins[..|ins|] == ins;
  }

  /** `rerouteOutgoingEdges`: the mirror image, copying the edges out of `src` to start at `dst`. */
  method RerouteOutgoingEdges(g: Graph, src: Key, dst: Key) returns (r: Graph)
    requires Valid(g) && src in g.vertices && dst in g.vertices
    ensures r == RerouteOutgoing(g, src, dst)
  {
    var outs := Outgoing(g, src);
    FanOutFacts(g, src);
    r := g;
    var i := 0;
    while i < |outs|
      invariant 0 <= i <= |outs|
      invariant r == Graph(g.vertices, g.edges + Resourced(g.edges, outs[..i], dst))
    {
      ResourceStep(g, outs, i, dst);
      r := AddEdge(r, dst, outs[i].target, outs[i].flowCondition);
      i := i + 1;
    }
    assert outs[..|outs|] == outs;
  }

  /** Reroute what enters `src` to `dst`, then drop `src` with its edges. */
  method Replace(g: Graph, src: Key, dst: Key) returns (r: Graph)
    requires Valid(g) && src in g.vertices && dst in g.vertices
    ensures Valid(r) && r.vertices == g.vertices - {src}
    ensures r == RemoveVertex(RerouteIncoming(g, src, dst), src)
  {
    RerouteIncomingValid(g, src, dst);
    r := RerouteIncomingEdges(g, src, dst);
    r := RemoveVertex(r, src);
  }

  /**
   * `addDecisionNode`: the decision vertex with its true and its false edge.
   * A decision vertex that had no outgoing edge has exactly those two
   * afterwards, or the true edge alone when both targets are the same vertex.
   */
  method AddDecisionNode(g: Graph, d: Key, t: Key, f: Key) returns (r: Graph)
    requires Valid(g) && t in g.vertices && f in g.vertices
    ensures Valid(r)
    ensures d in g.vertices ==> r.vertices == g.vertices
    ensures d !in g.vertices ==> r.vertices == g.vertices[d := Unlabelled]
    ensures Outgoing(g, d) == [] ==>
              && r.edges == g.edges + DecisionEdges(d, t, f)
              && Outgoing(r, d) == DecisionEdges(d, t, f)
  {
    var h0 := AddVertex(g, d, Unlabelled);
    var h1 := AddEdge(h0, d, t, Some(true));
    r := AddEdge(h1, d, f, Some(false));
    if Outgoing(g, d) == [] {
      var x, y := FlowEdge(d, t, Some(true)), FlowEdge(d, f, Some(false));
      NoOutgoingNotLinked(g, d, t);
      AddEdgeOutgoing(h0, d, t, Some(true), d);
      assert h1.edges == g.edges + [x];
      if f != t {
        NoOutgoingNotLinked(g, d, f);
        NotLinkedExtra(g.edges, [x], d, f);
        AddEdgeOutgoing(h1, d, f, Some(false), d);
        assert r.edges == g.edges + [x] + [y];
        assert g.edges + [x] + [y] == g.edges + ([x] + [y]);
      }
    }
  }

  /**
   * Removing the edge `e` and joining its ends again by a false edge, as the
   * loops, the if and the switch do with the statement's edge to its
   * successor.
   */
  method MarkExit(g: Graph, e: FlowEdge) returns (r: Graph)
    requires Valid(g) && e.source in g.vertices && e.target in g.vertices
    ensures Valid(r) && r.vertices == g.vertices
    ensures e in g.edges ==> r.edges == Select(g.edges, Except(e)) + [FlowEdge(e.source, e.target, Some(false))]
  {
    var h := RemoveEdge(g, e);
    if e in g.edges {
      OnlyJoining(g.edges, e);
    }
    r := AddEdge(h, e.source, e.target, Some(false));
  }

  /** Distinct child steps give distinct vertices. */
  lemma ChildrenDistinct(p: seq<nat>, i: nat, j: nat)
    requires i != j
    ensures At(p + [i]) != At(p + [j])
  {
    StepsDistinct(p, [i], [j]);
  }

  /**
   * The first half of visiting an if statement at `p` whose vertex has the
   * single edge `e`: a vertex for the else branch, when there is one, and one
   * for the then branch, each leading to the statement's successor; the
   * decision vertex for the condition, true to the then branch and false to
   * the else branch or the successor; the statement's vertex now leads to the
   * decision, and a false edge to the successor replaces `e`. When the parts
   * of the statement are new to the graph, that is exactly what changes.
   */
  method ExpandIf(g: Graph, p: seq<nat>, e: FlowEdge, hasElse: bool) returns (r: Graph)
    requires Valid(g) && Outgoing(g, At(p)) == [e]
    ensures Valid(r)
    ensures var s, t, d, tt := At(p), e.target, At(p + [0]), At(p + [1]);
            var f := if hasElse then At(p + [2]) else t;
            d !in g.vertices && tt !in g.vertices && (hasElse ==> f !in g.vertices) ==>
            && r.vertices == (if hasElse then g.vertices[f := Unlabelled] else g.vertices)[tt := Unlabelled][d := Unlabelled]
            && r.edges == Select((if hasElse then g.edges + [FlowEdge(f, t, None)] else g.edges) + DecisionEdges(d, tt, f)
                                 + [FlowEdge(tt, t, None)] + [FlowEdge(s, d, None)], Except(e))
                          + [FlowEdge(s, t, Some(false))]
  {
    var s, t, d, tt := At(p), e.target, At(p + [0]), At(p + [1]);
    SoleOutgoing(g, s, e);
    var f := if hasElse then At(p + [2]) else t;
    var h1 := g;
    if hasElse {
      var h0 := AddVertex(g, f, Unlabelled);
      h1 := AddEdge(h0, f, t, None);
      if f !in g.vertices {
        FreshNotLinked(g, f, t);
      }
    }
    var h2 := AddVertex(h1, tt, Unlabelled);
    var h3 := AddDecisionNode(h2, d, tt, f);
    var h4 := AddEdge(h3, tt, t, None);
    var h5 := AddEdge(h4, s, d, None);
    r := MarkExit(h5, e);
    if d !in g.vertices && tt !in g.vertices && (hasElse ==> f !in g.vertices) {
      ChildrenDistinct(p, 0, 1);
      ChildrenDistinct(p, 0, 2);
      IfShape(g, p, e, hasElse, h1, h2, h3, h4, h5, r);
    }
  }

  /** The graph `ExpandIf` builds, from what each of its steps gives. */
  lemma IfShape(g: Graph, p: seq<nat>, e: FlowEdge, hasElse: bool, h1: Graph, h2: Graph, h3: Graph, h4: Graph, h5: Graph, r: Graph)
    requires Valid(g) && e in g.edges && e.source == At(p)
    requires var s, t, d, tt := At(p), e.target, At(p + [0]), At(p + [1]);
             var f := if hasElse then At(p + [2]) else t;
             && d !in g.vertices && tt !in g.vertices && (hasElse ==> f !in g.vertices) && Valid(h1)
             && (hasElse ==> h1.vertices == g.vertices[f := Unlabelled] && h1.edges == g.edges + [FlowEdge(f, t, None)])
             && (!hasElse ==> h1 == g)
             && h2 == AddVertex(h1, tt, Unlabelled)
             && Valid(h3) && h3.vertices == h2.vertices[d := Unlabelled]
             && (Outgoing(h2, d) == [] ==> h3.edges == h2.edges + DecisionEdges(d, tt, f))
             && h4 == AddEdge(h3, tt, t, None)
             && h5 == AddEdge(h4, s, d, None)
             && r.vertices == h5.vertices
             && (e in h5.edges ==> r.edges == Select(h5.edges, Except(e)) + [FlowEdge(s, t, Some(false))])
    ensures var s, t, d, tt := At(p), e.target, At(p + [0]), At(p + [1]);
            var f := if hasElse then At(p + [2]) else t;
            && r.vertices == (if hasElse then g.vertices[f := Unlabelled] else g.vertices)[tt := Unlabelled][d := Unlabelled]
            && r.edges == Select((if hasElse then g.edges + [FlowEdge(f, t, None)] else g.edges) + DecisionEdges(d, tt, f)
                                 + [FlowEdge(tt, t, None)] + [FlowEdge(s, d, None)], Except(e))
                          + [FlowEdge(s, t, Some(false))]
  {
    var s, t, d, tt := At(p), e.target, At(p + [0]), At(p + [1]);
    var f := if hasElse then At(p + [2]) else t;
    var ds := DecisionEdges(d, tt, f);
    ChildrenDistinct(p, 0, 1);
    ChildrenDistinct(p, 0, 2);
    ChildrenDistinct(p, 1, 2);
    AbsentNoEdges(h2, d);
    assert h3.edges == h1.edges + ds;
    FreshNotLinked(h1, tt, t);
    NotLinkedExtra(h2.edges, ds, tt, t);
    assert h4.edges == h3.edges + [FlowEdge(tt, t, None)];
    FreshNotLinked(h2, s, d);
    NotLinkedExtra(h2.edges, ds, s, d);
    NotLinkedExtra(h3.edges, [FlowEdge(tt, t, None)], s, d);
    assert h5.edges == h4.edges + [FlowEdge(s, d, None)];
  }

  /**
   * The first half of visiting a while loop at `p` whose vertex has the single
   * edge `e`: vertices for the condition and the body; the loop's vertex gets
   * a false edge to the successor in place of `e` and a true edge to the
   * decision, which is true to the body and false to the successor, and the
   * body leads back to the loop's vertex.
   */
  method ExpandWhile(g: Graph, p: seq<nat>, e: FlowEdge) returns (r: Graph)
    requires Valid(g) && Outgoing(g, At(p)) == [e]
    ensures Valid(r)
    ensures var s, t, d, b := At(p), e.target, At(p + [0]), At(p + [1]);
            d !in g.vertices && b !in g.vertices ==>
            && r.vertices == g.vertices[d := Unlabelled][b := Unlabelled]
            && r.edges == Select(g.edges, Except(e)) + [FlowEdge(s, t, Some(false))] + [FlowEdge(s, d, Some(true))]
                          + DecisionEdges(d, b, t) + [FlowEdge(b, s, None)]
  {
    var s, t, d, b := At(p), e.target, At(p + [0]), At(p + [1]);
    SoleOutgoing(g, s, e);
    var h1 := AddVertex(g, d, Unlabelled);
    var h2 := AddVertex(h1, b, Unlabelled);
    var h3 := MarkExit(h2, e);
    var h4 := AddEdge(h3, s, d, Some(true));
    var h5 := AddDecisionNode(h4, d, b, t);
    r := AddEdge(h5, b, s, None);
    if d !in g.vertices && b !in g.vertices {
      WhileShape(g, p, e, h3, h4, h5, r);
    }
  }

  /** The graph `ExpandWhile` builds, from what each of its steps gives. */
  lemma WhileShape(g: Graph, p: seq<nat>, e: FlowEdge, h3: Graph, h4: Graph, h5: Graph, r: Graph)
    requires Valid(g) && e in g.edges && e.source == At(p) && Outgoing(g, At(p)) == [e]
    requires var s, t, d, b := At(p), e.target, At(p + [0]), At(p + [1]);
             && d !in g.vertices && b !in g.vertices && Valid(h3)
             && h3.vertices == g.vertices[d := Unlabelled][b := Unlabelled]
             && h3.edges == Select(g.edges, Except(e)) + [FlowEdge(s, t, Some(false))]
             && h4 == AddEdge(h3, s, d, Some(true))
             && h5.vertices == h4.vertices
             && (Outgoing(h4, d) == [] ==> h5.edges == h4.edges + DecisionEdges(d, b, t))
             && r == AddEdge(h5, b, s, None)
    ensures var s, t, d, b := At(p), e.target, At(p + [0]), At(p + [1]);
            && r.vertices == g.vertices[d := Unlabelled][b := Unlabelled]
            && r.edges == Select(g.edges, Except(e)) + [FlowEdge(s, t, Some(false))] + [FlowEdge(s, d, Some(true))]
                          + DecisionEdges(d, b, t) + [FlowEdge(b, s, None)]
  {
    var s, t, d, b := At(p), e.target, At(p + [0]), At(p + [1]);
    var kept := Select(g.edges, Except(e));
    var ds := DecisionEdges(d, b, t);
    ChildrenDistinct(p, 0, 1);
    FreshNotLinked(g, s, d);
    SelectNotLinked(g.edges, Except(e), s, d);
    NotLinkedExtra(kept, [FlowEdge(s, t, Some(false))], s, d);
    AbsentUntouched(g, d);
    SelectNone(h4.edges, From(d));
    FreshNotLinked(g, b, s);
    SelectNotLinked(g.edges, Except(e), b, s);
    NotLinkedExtra(kept, [FlowEdge(s, t, Some(false))], b, s);
    NotLinkedExtra(h3.edges, [FlowEdge(s, d, Some(true))], b, s);
    NotLinkedExtra(h4.edges, ds, b, s);
  }

  /**
   * The first half of visiting a do loop at `p` whose vertex has the single
   * edge `e`: a vertex for the body and a decision for the condition, true back
   * to the body and false to the successor; the body leads to the decision; the
   * loop's vertex gains an edge to the body and a true edge to the decision.
   * Its false edge to the successor is not added, because `e` already joins
   * the two, so `e` stays in place untagged.
   */
  method ExpandDo(g: Graph, p: seq<nat>, e: FlowEdge) returns (r: Graph)
    requires Valid(g) && Outgoing(g, At(p)) == [e]
    ensures Valid(r)
    ensures var s, t, b, d := At(p), e.target, At(p + [0]), At(p + [1]);
            b !in g.vertices && d !in g.vertices ==>
            && r.vertices == g.vertices[b := Unlabelled][d := Unlabelled]
            && r.edges == g.edges + DecisionEdges(d, b, t) + [FlowEdge(b, d, None)] + [FlowEdge(s, b, None)]
                          + [FlowEdge(s, d, Some(true))]
  {
    var s, t, b, d := At(p), e.target, At(p + [0]), At(p + [1]);
    SoleOutgoing(g, s, e);
    var h1 := AddVertex(g, b, Unlabelled);
    var h2 := AddDecisionNode(h1, d, b, t);
    var h3 := AddEdge(h2, b, d, None);
    var h4 := AddEdge(h3, s, b, None);
    var h5 := AddEdge(h4, s, t, Some(false));
    r := AddEdge(h5, s, d, Some(true));
    if b !in g.vertices && d !in g.vertices {
      DoShape(g, p, e, h1, h2, h3, h4, h5, r);
    }
  }

  /** The graph `ExpandDo` builds, from what each of its steps gives. */
  lemma DoShape(g: Graph, p: seq<nat>, e: FlowEdge, h1: Graph, h2: Graph, h3: Graph, h4: Graph, h5: Graph, r: Graph)
    requires Valid(g) && e in g.edges && e.source == At(p)
    requires var s, t, b, d := At(p), e.target, At(p + [0]), At(p + [1]);
             && b !in g.vertices && d !in g.vertices && t in g.vertices
             && h1 == AddVertex(g, b, Unlabelled)
             && Valid(h2) && h2.vertices == h1.vertices[d := Unlabelled]
             && (Outgoing(h1, d) == [] ==> h2.edges == h1.edges + DecisionEdges(d, b, t))
             && h3 == AddEdge(h2, b, d, None)
             && h4 == AddEdge(h3, s, b, None)
             && h5 == AddEdge(h4, s, t, Some(false))
             && r == AddEdge(h5, s, d, Some(true))
    ensures var s, t, b, d := At(p), e.target, At(p + [0]), At(p + [1]);
            && r.vertices == g.vertices[b := Unlabelled][d := Unlabelled]
            && r.edges == g.edges + DecisionEdges(d, b, t) + [FlowEdge(b, d, None)] + [FlowEdge(s, b, None)]
                          + [FlowEdge(s, d, Some(true))]
  {
    var s, t, b, d := At(p), e.target, At(p + [0]), At(p + [1]);
    var ds := DecisionEdges(d, b, t);
    var bd, sb, sd := FlowEdge(b, d, None), FlowEdge(s, b, None), FlowEdge(s, d, Some(true));
    ChildrenDistinct(p, 0, 1);
    AbsentNoEdges(h1, d);
    assert h2.edges == g.edges + ds;
    FreshNotLinked(h1, b, d);
    NotLinkedExtra(h1.edges, ds, b, d);
    assert h3.edges == h2.edges + [bd];
    FreshNotLinked(g, s, b);
    NotLinkedExtra(g.edges, ds, s, b);
    NotLinkedExtra(h2.edges, [bd], s, b);
    assert h4.edges == h3.edges + [sb];
    assert e in h4.edges;
    assert h5 == h4;
    FreshNotLinked(g, s, d);
    NotLinkedExtra(g.edges, ds, s, d);
    NotLinkedExtra(h2.edges, [bd], s, d);
    NotLinkedExtra(h3.edges, [sb], s, d);
    assert r.edges == h4.edges + [sd];
  }

  /** `ks` added in order to the vertices `m`, each with data `d`. */
  function WithVertices(m: map<Key, VertexData>, ks: seq<Key>, d: VertexData): map<Key, VertexData>
    decreases |ks|
  {
    if |ks| == 0 then m else WithVertices(m, ks[..|ks| - 1], d)[ks[|ks| - 1] := d]
  }

  /** None of `ks` is a vertex of `g`. */
  predicate AllAbsent(g: Graph, ks: seq<Key>)
  {
    forall k | k in ks :: k !in g.vertices
  }

  /** The vertex a chain starts from, if any, as a sequence. */
  function Seed(start: Option<Key>): seq<Key>
  {
    if start.Some? then [start.value] else []
  }

  /**
   * The loop that block, switch, switch-entry and the parts of a for loop
   * share: each vertex of `ks` in turn is added and joined from the one before
   * it, the first from `start` when there is one, by an edge tagged `c`. When
   * the vertices are distinct and new, the graph gains exactly those vertices
   * and the chain of edges through them.
   */
  method AddChain(g: Graph, start: Option<Key>, ks: seq<Key>, d: VertexData, c: Option<bool>) returns (r: Graph)
    requires Valid(g) && (start.Some? ==> start.value in g.vertices)
    ensures Valid(r) && (forall k | k in g.vertices :: k in r.vertices) && (forall k | k in ks :: k in r.vertices)
    ensures Distinct(ks) && AllAbsent(g, ks) ==>
              r.vertices == WithVertices(g.vertices, ks, d) && r.edges == g.edges + Chain(Seed(start) + ks, c)
  {
    var isNew := Distinct(ks) && AllAbsent(g, ks);
    r := g;
    var i := 0;
    while i < |ks|
      invariant 0 <= i <= |ks|
      invariant Valid(r) && (forall k | k in g.vertices :: k in r.vertices) && (forall j | 0 <= j < i :: ks[j] in r.vertices)
      invariant isNew ==> ChainBuilt(g, start, ks[..i], d, c, r)
    {
      r := ChainTurn(g, start, ks, i, d, c, r, isNew);
      i := i + 1;
    }
    assert ks[..|ks|] == ks;
  }

  /** One turn of the loop of `AddChain`: `ks[i]` added and joined from the vertex before it. */
  method ChainTurn(g: Graph, start: Option<Key>, ks: seq<Key>, i: nat, d: VertexData, c: Option<bool>, r: Graph, isNew: bool)
    returns (r': Graph)
    requires Valid(r) && i < |ks| && (Previous(start, ks, i).Some? ==> Previous(start, ks, i).value in r.vertices)
    requires isNew ==> Distinct(ks) && AllAbsent(g, ks) && ChainBuilt(g, start, ks[..i], d, c, r)
    ensures Valid(r') && (forall k | k in r.vertices :: k in r'.vertices) && ks[i] in r'.vertices
    ensures isNew ==> ChainBuilt(g, start, ks[..i + 1], d, c, r')
  {
    var k, prev := ks[i], Previous(start, ks, i);
    var h := AddVertex(r, k, d);
    r' := h;
    if prev.Some? {
      r' := AddEdge(h, prev.value, k, c);
    }
    if isNew {
      if prev.Some? {
        ChainNextFree(g, ks, i, d, r, prev.value);
      }
      ChainStep(g, start, ks, i, d, c, r, h, r');
    }
  }

  /** `r` is `g` with the chain through `ks` added. */
  predicate ChainBuilt(g: Graph, start: Option<Key>, ks: seq<Key>, d: VertexData, c: Option<bool>, r: Graph)
  {
    r.vertices == WithVertices(g.vertices, ks, d) && r.edges == g.edges + Chain(Seed(start) + ks, c)
  }

  /** The vertex the `i`-th vertex of a chain is joined from. */
  function Previous(start: Option<Key>, ks: seq<Key>, i: nat): Option<Key>
    requires i < |ks|
  {
    if i > 0 then Some(ks[i - 1]) else start
  }

  /** One turn of the loop of `AddChain` on new vertices. */
  lemma ChainStep(g: Graph, start: Option<Key>, ks: seq<Key>, i: nat, d: VertexData, c: Option<bool>, r: Graph, h: Graph, h': Graph)
    requires i < |ks| && Distinct(ks) && AllAbsent(g, ks)
    requires var pv := Previous(start, ks, i);
             pv.Some? ==> pv.value in r.vertices && !Linked(r.edges, pv.value, ks[i])
    requires ChainBuilt(g, start, ks[..i], d, c, r)
    requires h == AddVertex(r, ks[i], d)
    requires var pv := Previous(start, ks, i);
             h' == if pv.Some? then AddEdge(h, pv.value, ks[i], c) else h
    ensures ChainBuilt(g, start, ks[..i + 1], d, c, h')
  {
    var k, pv := ks[i], Previous(start, ks, i);
    assert k !in r.vertices by {
      WithVerticesKeys(g.vertices, ks[..i], d, k);
    }
    assert ks[..i + 1][..i] == ks[..i];
    assert h'.vertices == WithVertices(g.vertices, ks[..i + 1], d);
    ChainStepEdges(g.edges, start, ks, i, c, r, h');
  }

  /** The next vertex of a chain of new vertices is not a vertex yet, so nothing leads to it. */
  lemma ChainNextFree(g: Graph, ks: seq<Key>, i: nat, d: VertexData, r: Graph, u: Key)
    requires Valid(r) && i < |ks| && Distinct(ks) && AllAbsent(g, ks)
    requires r.vertices == WithVertices(g.vertices, ks[..i], d)
    ensures !Linked(r.edges, u, ks[i])
  {
    WithVerticesKeys(g.vertices, ks[..i], d, ks[i]);
    FreshNotLinked(r, u, ks[i]);
  }

  /** The edges after one turn of the loop of `AddChain`. */
  lemma ChainStepEdges(es: seq<FlowEdge>, start: Option<Key>, ks: seq<Key>, i: nat, c: Option<bool>, r: Graph, h': Graph)
    requires i < |ks| && r.edges == es + Chain(Seed(start) + ks[..i], c)
    requires var pv := Previous(start, ks, i);
             h'.edges == if pv.Some? then r.edges + [FlowEdge(pv.value, ks[i], c)] else r.edges
    ensures h'.edges == es + Chain(Seed(start) + ks[..i + 1], c)
  {
    var k, pv := ks[i], Previous(start, ks, i);
    var before := Seed(start) + ks[..i];
    SeedStep(start, ks, i, k);
    if pv.Some? {
      ChainExtend(before, k, c);
      EdgesAppend(es, Chain(before, c), FlowEdge(pv.value, k, c));
    } else {
      assert before + [k] == [k];
    }
  }

  /** The vertices a chain runs through, one turn further. */
  lemma SeedStep(start: Option<Key>, ks: seq<Key>, i: nat, k: Key)
    requires i < |ks| && k == ks[i]
    ensures var before := Seed(start) + ks[..i];
            && before + [k] == Seed(start) + ks[..i + 1]
            && (|before| > 0 <==> Previous(start, ks, i).Some?)
            && (|before| > 0 ==> before[|before| - 1] == Previous(start, ks, i).value)
  {
    assert ks[..i + 1] == ks[..i] + [k];
  }

  lemma EdgesAppend(a: seq<FlowEdge>, b: seq<FlowEdge>, x: FlowEdge)
    ensures a + b + [x] == a + (b + [x])
  {
  }

  /**
   * The last vertex of a chain of new, distinct vertices has no edge yet to
   * any vertex `t`, so the edge closing the chain is new.
   */
  lemma ChainLastFree(g: Graph, pre: seq<Key>, ks: seq<Key>, t: Key, c: Option<bool>)
    requires Valid(g) && |ks| > 0 && Distinct(ks) && AllAbsent(g, ks) && forall k | k in pre :: k in g.vertices
    ensures !Linked(g.edges + Chain(pre + ks, c), ks[|ks| - 1], t)
  {
    var last := ks[|ks| - 1];
    FreshNotLinked(g, last, t);
    forall i | 0 <= i < |pre + ks| - 1 ensures (pre + ks)[i] != last {
      if i < |pre| {
        assert (pre + ks)[i] in pre;
      } else {
        assert (pre + ks)[i] == ks[i - |pre|];
      }
    }
    ChainSources(pre + ks, c, last);
    NotLinkedExtra(g.edges, Chain(pre + ks, c), last, t);
  }

  /** The keys of `WithVertices`. */
  lemma {:induction false} WithVerticesKeys(m: map<Key, VertexData>, ks: seq<Key>, d: VertexData, k: Key)
    ensures k in WithVertices(m, ks, d) <==> k in m || k in ks
    decreases |ks|
  {
    if |ks| > 0 {
      WithVerticesKeys(m, ks[..|ks| - 1], d, k);
      assert k in ks <==> k in ks[..|ks| - 1] || k == ks[|ks| - 1];
    }
  }

  /** Successive `addVertex` calls for `ks`, each with data `d`. */
  function AddVertices(g: Graph, ks: seq<Key>, d: VertexData): (r: Graph)
    ensures r.edges == g.edges && (Valid(g) ==> Valid(r))
    ensures (forall k | k in g.vertices :: k in r.vertices) && (forall k | k in ks :: k in r.vertices)
    decreases |ks|
  {
    if |ks| == 0 then g else AddVertex(AddVertices(g, ks[..|ks| - 1], d), ks[|ks| - 1], d)
  }

  /** Distinct new vertices are each stored with `d`. */
  lemma {:induction false} AddVerticesNew(g: Graph, ks: seq<Key>, d: VertexData)
    requires Distinct(ks) && AllAbsent(g, ks)
    ensures AddVertices(g, ks, d).vertices == WithVertices(g.vertices, ks, d)
    decreases |ks|
  {
    if |ks| > 0 {
      var front, k := ks[..|ks| - 1], ks[|ks| - 1];
      assert forall x | x in front :: x in ks;
      assert Distinct(front) by {
        forall i, j | 0 <= i < j < |front| ensures front[i] != front[j] {
          assert front[i] == ks[i] && front[j] == ks[j];
        }
      }
      AddVerticesNew(g, front, d);
      WithVerticesKeys(g.vertices, front, d, k);
      assert k !in front by {
        forall i | 0 <= i < |front| ensures front[i] != k {
          assert front[i] == ks[i];
        }
      }
    }
  }

  /**
   * `rerouteIncomingEdges(src, dst)` followed by `removeVertex(src)`, with the
   * graph's errors: asking for the edges of a missing `src` fails, and so
   * does the first edge added to a missing `dst`.
   */
  method ReplaceChecked(g: Graph, src: Key, dst: Key) returns (r: Result<Graph, ConvertError>)
    requires Valid(g)
    ensures r.Ok? ==> Valid(r.value) && src !in r.value.vertices
    ensures src !in g.vertices ==> r == Err(NoSuchVertex)
    ensures src in g.vertices && dst in g.vertices ==> r == Ok(RemoveVertex(RerouteIncoming(g, src, dst), src))
    ensures src in g.vertices && dst !in g.vertices ==>
              r == if Incoming(g, src) == [] then Ok(RemoveVertex(g, src)) else Err(NoSuchVertex)
  {
    if src !in g.vertices {
      return Err(NoSuchVertex);
    }
    if dst !in g.vertices {
      if Incoming(g, src) == [] {
        return Ok(RemoveVertex(g, src));
      }
      return Err(NoSuchVertex);
    }
    var h := Replace(g, src, dst);
    r := Ok(h);
  }

  /**
   * Visiting a block at `p` whose vertex has the single edge `e`: an empty
   * block hands what enters it to its successor; otherwise its `n`
   * statements are chained in order, the last leading to the successor, and
   * what entered the block enters the first statement. The block's vertex is
   * gone either way.
   */
  method ExpandBlock(g: Graph, p: seq<nat>, e: FlowEdge, n: nat) returns (r: Graph)
    requires Valid(g) && Outgoing(g, At(p)) == [e]
    ensures Valid(r) && At(p) !in r.vertices
    ensures n == 0 ==> r == RemoveVertex(RerouteIncoming(g, At(p), e.target), At(p))
    ensures var ks := Children(p, n);
            n > 0 && AllAbsent(g, ks) ==>
            r == RemoveVertex(RerouteIncoming(Graph(WithVertices(g.vertices, ks, Unlabelled), g.edges + Chain(ks + [e.target], None)),
                                              At(p), ks[0]), At(p))
  {
    var s, t := At(p), e.target;
    SoleOutgoing(g, s, e);
    if n == 0 {
      r := Replace(g, s, t);
    } else {
      var ks := Children(p, n);
      ChildrenAreDistinct(p, n);
      var h1 := AddChain(g, None, ks, Unlabelled, None);
      var h2 := AddEdge(h1, ks[n - 1], t, None);
      if AllAbsent(g, ks) {
        BlockShape(g, ks, t, h1, h2);
      }
      r := Replace(h2, s, ks[0]);
    }
  }

  /** The graph `ExpandBlock` has built when it redirects the block's entry. */
  lemma BlockShape(g: Graph, ks: seq<Key>, t: Key, h1: Graph, h2: Graph)
    requires Valid(g) && |ks| > 0 && Distinct(ks) && AllAbsent(g, ks)
    requires h1.vertices == WithVertices(g.vertices, ks, Unlabelled) && h1.edges == g.edges + Chain(Seed(None) + ks, None)
    requires ks[|ks| - 1] in h1.vertices && t in h1.vertices
    requires h2 == AddEdge(h1, ks[|ks| - 1], t, None)
    ensures h2 == Graph(WithVertices(g.vertices, ks, Unlabelled), g.edges + Chain(ks + [t], None))
  {
    var x := FlowEdge(ks[|ks| - 1], t, None);
    assert Seed(None) + ks == ks && [] + ks == ks;
    ChainLastFree(g, [], ks, t, None);
    assert h2.edges == g.edges + Chain(ks, None) + [x];
    ChainExtend(ks, t, None);
    EdgesAppend(g.edges, Chain(ks, None), x);
  }

  /**
   * Visiting a labelled statement at `p` whose vertex has the single edge `e`:
   * the inner statement's vertex, carrying the label, takes the place of the
   * labelled statement's vertex and leads to the successor. When `e` is a
   * self-loop the successor is gone by then and the graph rejects the edge.
   */
  method ExpandLabeled(g: Graph, p: seq<nat>, e: FlowEdge, name: string) returns (r: Result<Graph, ConvertError>)
    requires Valid(g) && Outgoing(g, At(p)) == [e]
    ensures r.Err? <==> e.target == At(p)
    ensures r.Err? ==> r.error == NoSuchVertex
    ensures var s, l := At(p), At(p + [0]);
            var h := RemoveVertex(RerouteIncoming(AddVertex(g, l, VertexData(Some(name), map[])), s, l), s);
            r.Ok? ==> && Valid(r.value) && s !in r.value.vertices
                      && l in h.vertices && e.target in h.vertices && r.value == AddEdge(h, l, e.target, None)
    ensures var l := At(p + [0]);
            r.Ok? && l !in g.vertices ==> r.value.vertices[l] == VertexData(Some(name), map[])
  {
    var s, t, l := At(p), e.target, At(p + [0]);
    SoleOutgoing(g, s, e);
    assert l != s by {
      assert |p + [0]| != |p|;
    }
    var h1 := AddVertex(g, l, VertexData(Some(name), map[]));
    var h2 := Replace(h1, s, l);
    if t !in h2.vertices {
      return Err(NoSuchVertex);
    }
    r := Ok(AddEdge(h2, l, t, None));
  }

  /**
   * What break and continue do once they know where they lead: the jump's
   * vertex loses its edges, what entered it enters `target`, and it is removed.
   */
  method JumpTo(g: Graph, s: Key, target: Key) returns (r: Graph)
    requires Valid(g) && s in g.vertices && target in g.vertices
    ensures Valid(r) && s !in r.vertices && r.vertices == g.vertices - {s}
    ensures r == RemoveVertex(RerouteIncoming(RemoveOutgoing(g, s), s, target), s)
  {
    var h := RemoveOutgoing(g, s);
    r := Replace(h, s, target);
  }

  /**
   * What a return does: its vertex's edges are replaced by a single edge to
   * the method's exit, which the graph must have.
   */
  method ReturnTo(g: Graph, s: Key) returns (r: Result<Graph, ConvertError>)
    requires Valid(g) && s in g.vertices
    ensures r.Err? <==> Exit !in g.vertices
    ensures r.Err? ==> r.error == NoSuchVertex
    ensures r.Ok? ==> Valid(r.value) && r.value.vertices == g.vertices
    ensures r.Ok? ==> Outgoing(r.value, s) == [FlowEdge(s, Exit, None)]
    ensures r.Ok? ==> forall x | x in r.value.edges && x.source != s :: x in g.edges
  {
    var h := RemoveOutgoing(g, s);
    if Exit !in h.vertices {
      return Err(NoSuchVertex);
    }
    assert Outgoing(h, s) == [] by {
      SelectNone(h.edges, From(s));
    }
    NoOutgoingNotLinked(h, s, Exit);
    AddEdgeOutgoing(h, s, Exit, None, s);
    r := Ok(AddEdge(h, s, Exit, None));
  }

  /** The vertex of a node parsed from `text` with serial number `serial`. */
  function ParsedKey(serial: nat, text: string): Key
  {
    NodeKey(Parsed(serial, text))
  }

  /**
   * The parsed statements of a rewritten for-each loop over `it` with loop
   * variable `v`, numbered `n`, in the order they are made; the loop test
   * comes last.
   */
  function ForEachParts(serial: nat, v: Declarator, it: string, ds: Desugaring, n: nat): (r: seq<Key>)
    ensures |r| == if ds.IndexLoop? then 5 else 4
  {
    match ds
    case IndexLoop(overString) =>
      [ParsedKey(serial, LoopVarDeclText(v)), ParsedKey(serial + 1, IndexInitText(n)),
       ParsedKey(serial + 2, IndexSetText(v, it, n, overString)), ParsedKey(serial + 3, IndexUpdateText(n)),
       ParsedKey(serial + 4, IndexTestText(it, n, overString))]
    case IteratorLoop(elementType) =>
      [ParsedKey(serial, IteratorInitText(elementType, it, n)), ParsedKey(serial + 1, LoopVarDeclText(v)),
       ParsedKey(serial + 2, IteratorSetText(v, n)), ParsedKey(serial + 3, IteratorTestText(n))]
  }

  /** Where a rewritten for-each is entered: the declaration of its variable. */
  function ForEachStart(ks: seq<Key>, ds: Desugaring): Key
    requires |ks| == if ds.IndexLoop? then 5 else 4
  {
    if ds.IndexLoop? then ks[0] else ks[1]
  }

  /**
   * The untagged edges of a rewritten for-each with body `b`: declaration,
   * initialisation, test; the element assignment leads to the body, and the
   * body, through the index update when there is one, back to the test.
   */
  function ForEachLinks(b: Key, ks: seq<Key>, ds: Desugaring): seq<FlowEdge>
    requires |ks| == if ds.IndexLoop? then 5 else 4
  {
    if ds.IndexLoop? then IndexLinks(b, ks) else IteratorLinks(b, ks)
  }


  /**
   * Edges added after a decision at `d` that each leave a vertex other than
   * `d` and touch a vertex new since `g` are all new: `AddEdges` appends them.
   */
  lemma LinksAfterDecision(g: Graph, h: Graph, d: Key, t: Key, f: Key, es: seq<FlowEdge>)
    requires Valid(g) && h.edges == g.edges + DecisionEdges(d, t, f)
    requires forall x | x in es :: x.source in h.vertices && x.target in h.vertices
    requires forall x | x in es :: x.source != d && (x.source !in g.vertices || x.target !in g.vertices)
    requires SimpleEdges(es)
    ensures AddEdges(h, es).edges == h.edges + es
  {
    forall x | x in es ensures !Linked(DecisionEdges(d, t, f), x.source, x.target) {
      assert forall y | y in DecisionEdges(d, t, f) :: y.source == d;
    }
    NewEdgesNotLinked(g, DecisionEdges(d, t, f), es);
    AddEdgesNew(h, es);
  }

  /**
   * The links of the index rewriting `ks` (declaration, index initialisation,
   * element assignment, index update, test) through the body `b`.
   */
  function IndexLinks(b: Key, ks: seq<Key>): seq<FlowEdge>
    requires |ks| == 5
  {
    [FlowEdge(ks[0], ks[1], None), FlowEdge(ks[1], ks[4], None), FlowEdge(ks[2], b, None),
     FlowEdge(b, ks[3], None), FlowEdge(ks[3], ks[4], None)]
  }

  /**
   * The links of the iterator rewriting `ks` (iterator initialisation,
   * declaration, element assignment, test) through the body `b`.
   */
  function IteratorLinks(b: Key, ks: seq<Key>): seq<FlowEdge>
    requires |ks| == 4
  {
    [FlowEdge(ks[1], ks[0], None), FlowEdge(ks[0], ks[3], None), FlowEdge(ks[2], b, None), FlowEdge(b, ks[3], None)]
  }

  /** New, distinct parts make the links new edges, none of them leaving the test. */
  lemma IndexLinksNew(g: Graph, b: Key, ks: seq<Key>)
    requires |ks| == 5 && Distinct(ks) && AllAbsent(g, ks) && b in g.vertices
    ensures SimpleEdges(IndexLinks(b, ks))
    ensures forall x | x in IndexLinks(b, ks) :: x.source != ks[4] && (x.source !in g.vertices || x.target !in g.vertices)
  {
    assert ks[0] !in g.vertices && ks[1] !in g.vertices && ks[2] !in g.vertices && ks[3] !in g.vertices && ks[4] !in g.vertices;
    assert ks[1] != ks[3] && ks[0] != ks[4] && ks[3] != ks[4] && ks[1] != ks[4];
  }

  lemma IteratorLinksNew(g: Graph, b: Key, ks: seq<Key>)
    requires |ks| == 4 && Distinct(ks) && AllAbsent(g, ks) && b in g.vertices
    ensures SimpleEdges(IteratorLinks(b, ks))
    ensures forall x | x in IteratorLinks(b, ks) :: x.source != ks[3] && (x.source !in g.vertices || x.target !in g.vertices)
  {
    assert ks[0] !in g.vertices && ks[1] !in g.vertices && ks[2] !in g.vertices && ks[3] !in g.vertices;
    assert ks[0] != ks[1] && ks[0] != ks[3] && ks[1] != ks[3] && ks[2] != ks[3];
  }

  /**
   * The first `m` of the distinct new parts `ks`, added one by one, leave the
   * last part new; adding it then gives all of `ks`.
   */
  lemma PartsNew(g: Graph, ks: seq<Key>, m: nat)
    requires m + 1 == |ks| && Distinct(ks) && AllAbsent(g, ks)
    ensures ks[m] !in AddVertices(g, ks[..m], Unlabelled).vertices
    ensures AddVertices(g, ks[..m], Unlabelled).vertices[ks[m] := Unlabelled] == WithVertices(g.vertices, ks, Unlabelled)
  {
    var front := ks[..m];
    assert forall x | x in front :: x in ks;
    assert Distinct(front) by {
      forall i, j | 0 <= i < j < |front| ensures front[i] != front[j] {
        assert front[i] == ks[i] && front[j] == ks[j];
      }
    }
    AddVerticesNew(g, front, Unlabelled);
    WithVerticesKeys(g.vertices, front, Unlabelled, ks[m]);
    assert ks[m] !in front by {
      forall i | 0 <= i < |front| ensures front[i] != ks[m] {
        assert front[i] == ks[i];
      }
    }
  }

  /**
   * The index rewriting of a for-each over an array or a string (the first
   * branch of the visit): with `ks` the declaration, index initialisation,
   * element assignment, index update and test, the four statements are added,
   * then the test as a decision true to the assignment and false to `t`, and
   * the untagged links through the body `b`.
   */
  method IndexLoopParts(g: Graph, b: Key, t: Key, ks: seq<Key>) returns (r: Graph)
    requires Valid(g) && b in g.vertices && t in g.vertices && |ks| == 5
    ensures Valid(r) && (forall k | k in g.vertices :: k in r.vertices) && (forall k | k in ks :: k in r.vertices)
    ensures Distinct(ks) && AllAbsent(g, ks) ==>
            && r.vertices == WithVertices(g.vertices, ks, Unlabelled)
            && r.edges == g.edges + DecisionEdges(ks[4], ks[2], t) + IndexLinks(b, ks)
  {
    var h4 := AddVertices(g, ks[..4], Unlabelled);
    var h5 := AddDecisionNode(h4, ks[4], ks[2], t);
    r := AddEdges(h5, IndexLinks(b, ks));
    if Distinct(ks) && AllAbsent(g, ks) {
      PartsNew(g, ks, 4);
      AbsentNoEdges(h4, ks[4]);
      IndexLinksNew(g, b, ks);
      LinksAfterDecision(g, h5, ks[4], ks[2], t, IndexLinks(b, ks));
    }
  }

  /**
   * The iterator rewriting of a for-each over any other iterable (the second
   * branch of the visit): with `ks` the iterator initialisation, declaration,
   * element assignment and test, the three statements are added, then the
   * test as a decision true to the assignment and false to `t`, and the
   * untagged links through the body `b`.
   */
  method IteratorLoopParts(g: Graph, b: Key, t: Key, ks: seq<Key>) returns (r: Graph)
    requires Valid(g) && b in g.vertices && t in g.vertices && |ks| == 4
    ensures Valid(r) && (forall k | k in g.vertices :: k in r.vertices) && (forall k | k in ks :: k in r.vertices)
    ensures Distinct(ks) && AllAbsent(g, ks) ==>
            && r.vertices == WithVertices(g.vertices, ks, Unlabelled)
            && r.edges == g.edges + DecisionEdges(ks[3], ks[2], t) + IteratorLinks(b, ks)
  {
    var h3 := AddVertices(g, ks[..3], Unlabelled);
    var h4 := AddDecisionNode(h3, ks[3], ks[2], t);
    r := AddEdges(h4, IteratorLinks(b, ks));
    if Distinct(ks) && AllAbsent(g, ks) {
      PartsNew(g, ks, 3);
      AbsentNoEdges(h3, ks[3]);
      IteratorLinksNew(g, b, ks);
      LinksAfterDecision(g, h4, ks[3], ks[2], t, IteratorLinks(b, ks));
    }
  }

  /**
   * How a for-each loop's vertex is wired once its parts are in place: it
   * leads to the loop's entry `start`, by a false edge to the successor in
   * place of `e`, and by a true edge to the test `d`.
   */
  method LoopEntry(g: Graph, e: FlowEdge, start: Key, d: Key) returns (r: Graph)
    requires Valid(g) && e.source in g.vertices && e.target in g.vertices && start in g.vertices && d in g.vertices
    ensures Valid(r) && r.vertices == g.vertices
    ensures var s, t := e.source, e.target;
            e in g.edges && !Linked(g.edges, s, start) && !Linked(g.edges, s, d) && d != start && d != t ==>
            r.edges == Select(g.edges + [FlowEdge(s, start, None)], Except(e)) + [FlowEdge(s, t, Some(false))] + [FlowEdge(s, d, Some(true))]
  {
    var s, t := e.source, e.target;
    var h1 := AddEdge(g, s, start, None);
    var h2 := MarkExit(h1, e);
    r := AddEdge(h2, s, d, Some(true));
    if e in g.edges && !Linked(g.edges, s, start) && !Linked(g.edges, s, d) && d != start && d != t {
      NotLinkedExtra(g.edges, [FlowEdge(s, start, None)], s, d);
      SelectNotLinked(h1.edges, Except(e), s, d);
      NotLinkedExtra(Select(h1.edges, Except(e)), [FlowEdge(s, t, Some(false))], s, d);
    }
  }


  /** The parts of a rewritten for-each are distinct: their serial numbers differ. */
  lemma ForEachPartsDistinct(serial: nat, v: Declarator, it: string, ds: Desugaring, n: nat)
    ensures Distinct(ForEachParts(serial, v, it, ds, n))
  {
  }

  /**
   * A statement's vertex `s` is joined neither to the entry nor to the test of
   * the new parts `ks` of a for-each, once they and their links are added.
   */
  lemma ForEachEntryNew(g: Graph, s: Key, b: Key, t: Key, ks: seq<Key>, ds: Desugaring)
    requires Valid(g) && s in g.vertices && s != b && AllAbsent(g, ks)
    requires |ks| == (if ds.IndexLoop? then 5 else 4)
    ensures var d := ks[|ks| - 1];
            var es := g.edges + DecisionEdges(d, ks[2], t) + ForEachLinks(b, ks, ds);
            !Linked(es, s, ForEachStart(ks, ds)) && !Linked(es, s, d)
  {
    var d := ks[|ks| - 1];
    assert ForEachStart(ks, ds) in ks && d in ks;
    FreshNotLinked(g, s, ForEachStart(ks, ds));
    FreshNotLinked(g, s, d);
    NotLinkedExtra(g.edges, DecisionEdges(d, ks[2], t), s, ForEachStart(ks, ds));
    NotLinkedExtra(g.edges, DecisionEdges(d, ks[2], t), s, d);
    var h := g.edges + DecisionEdges(d, ks[2], t);
    assert forall x | x in ForEachLinks(b, ks, ds) :: x.source != s;
    NotLinkedExtra(h, ForEachLinks(b, ks, ds), s, ForEachStart(ks, ds));
    NotLinkedExtra(h, ForEachLinks(b, ks, ds), s, d);
  }

  /**
   * The first half of visiting a for-each loop at `p`, once the rewriting `ds`
   * is chosen: the body's vertex, the parsed statements and the loop's wiring.
   */
  method ExpandForEach(g: Graph, p: seq<nat>, e: FlowEdge, v: Declarator, it: string, ds: Desugaring, n: nat, serial: nat)
    returns (r: Graph)
    requires Valid(g) && Outgoing(g, At(p)) == [e]
    ensures Valid(r)
    ensures var s, t, b, ks := At(p), e.target, At(p + [2]), ForEachParts(serial, v, it, ds, n);
            var d := ks[|ks| - 1];
            b !in g.vertices && AllAbsent(g, ks) ==>
            && r.vertices == WithVertices(g.vertices[b := Unlabelled], ks, Unlabelled)
            && r.edges == Select(g.edges + DecisionEdges(d, ks[2], t) + ForEachLinks(b, ks, ds) + [FlowEdge(s, ForEachStart(ks, ds), None)],
                                 Except(e))
                          + [FlowEdge(s, t, Some(false))] + [FlowEdge(s, d, Some(true))]
  {
    var s, t, b, ks := At(p), e.target, At(p + [2]), ForEachParts(serial, v, it, ds, n);
    SoleOutgoing(g, s, e);
    var d := ks[|ks| - 1];
    var h1 := AddVertex(g, b, Unlabelled);
    var h2;
    if ds.IndexLoop? {
      h2 := IndexLoopParts(h1, b, t, ks);
    } else {
      h2 := IteratorLoopParts(h1, b, t, ks);
    }
    r := LoopEntry(h2, e, ForEachStart(ks, ds), d);
    if b !in g.vertices && AllAbsent(g, ks) {
      ForEachPartsDistinct(serial, v, it, ds, n);
      assert AllAbsent(h1, ks);
      assert |p| != |p + [2]|;
      ForEachEntryNew(h1, s, b, t, ks, ds);
    }
  }

  // Switch statements

  /** What a switch stores on each entry's vertex: the selector's text. */
  function EntryData(selector: string): VertexData
  {
    VertexData(None, map["varname" := selector])
  }

  /**
   * The first half of visiting a switch at `p` with `n` entries whose vertex
   * has the single edge `e`: the edge to the successor becomes false-tagged,
   * and the entries' vertices, carrying the selector's text, form a chain of
   * false edges from the switch's vertex to the successor.
   */
  method ExpandSwitch(g: Graph, p: seq<nat>, e: FlowEdge, n: nat, selector: string) returns (r: Graph)
    requires Valid(g) && Outgoing(g, At(p)) == [e]
    ensures Valid(r) && (forall k | k in g.vertices :: k in r.vertices) && (forall k | k in Children(p + [1], n) :: k in r.vertices)
    ensures var s, t, ks := At(p), e.target, Children(p + [1], n);
            AllAbsent(g, ks) ==>
            && r.vertices == WithVertices(g.vertices, ks, EntryData(selector))
            && r.edges == Select(g.edges, Except(e)) + [FlowEdge(s, t, Some(false))]
                          + (if n == 0 then [] else Chain([s] + ks + [t], Some(false)))
  {
    var s, t, ks := At(p), e.target, Children(p + [1], n);
    SoleOutgoing(g, s, e);
    var h1 := MarkExit(g, e);
    var h2 := AddChain(h1, Some(s), ks, EntryData(selector), Some(false));
    var last := if n == 0 then s else ks[n - 1];
    r := AddEdge(h2, last, t, Some(false));
    if AllAbsent(g, ks) {
      ChildrenAreDistinct(p + [1], n);
      assert Seed(Some(s)) + ks == [s] + ks;
      SwitchShape(g, e, ks, h1, h2);
    }
  }

  /** The edges of `ExpandSwitch` on new entry vertices, from those of its two steps. */
  lemma SwitchShape(g: Graph, e: FlowEdge, ks: seq<Key>, h1: Graph, h2: Graph)
    requires Valid(h1) && Distinct(ks) && AllAbsent(h1, ks) && e.source in h1.vertices && e.target in h2.vertices
    requires h1.edges == Select(g.edges, Except(e)) + [FlowEdge(e.source, e.target, Some(false))]
    requires h2.edges == h1.edges + Chain([e.source] + ks, Some(false))
    requires |ks| > 0 ==> ks[|ks| - 1] in h2.vertices
    requires e.source in h2.vertices
    ensures var last := if |ks| == 0 then e.source else ks[|ks| - 1];
            AddEdge(h2, last, e.target, Some(false)).edges
            == Select(g.edges, Except(e)) + [FlowEdge(e.source, e.target, Some(false))]
               + (if |ks| == 0 then [] else Chain([e.source] + ks + [e.target], Some(false)))
  {
    var s, t := e.source, e.target;
    if |ks| == 0 {
      assert FlowEdge(s, t, Some(false)) in h2.edges;
    } else {
      ChainLastFree(h1, [s], ks, t, Some(false));
      ChainExtend([s] + ks, t, Some(false));
    }
  }

  /**
   * The second half of visiting a switch: what entered the switch's vertex
   * enters the first vertex it leads to other than the successor `t`, and
   * the vertex is removed. Without such a vertex, as for a switch without
   * entries, the search fails.
   */
  method FinishSwitch(g: Graph, s: Key, t: Key) returns (r: Result<Graph, ConvertError>)
    requires Valid(g)
    ensures s !in g.vertices ==> r == Err(NoSuchVertex)
    ensures s in g.vertices && FirstNotInto(Outgoing(g, s), t).None? ==> r == Err(NoSuchElement)
    ensures var x := FirstNotInto(Outgoing(g, s), t);
            s in g.vertices && x.Some? ==> x.value.target in g.vertices && r == Ok(RemoveVertex(RerouteIncoming(g, s, x.value.target), s))
    ensures r.Ok? ==> Valid(r.value) && s !in r.value.vertices
  {
    if s !in g.vertices {
      return Err(NoSuchVertex);
    }
    var x := FirstNotInto(Outgoing(g, s), t);
    if x.None? {
      return Err(NoSuchElement);
    }
    var h := Replace(g, s, x.value.target);
    r := Ok(h);
  }

  // Switch entries

  /**
   * The vertex through which an entry at `q` is entered once its condition is
   * built: the entry's own vertex for `default`, otherwise the parsed test of
   * the selector text stored on the entry's vertex against each label.
   */
  function EntrySource(g: Graph, q: seq<nat>, labels: seq<Expr>, serial: nat): Key
    requires At(q) in g.vertices
  {
    if |labels| == 0 then At(q) else ParsedKey(serial, CaseTestText(SelectorText(g.vertices[At(q)]), labels))
  }

  /**
   * The first half of visiting a switch entry at `q`: the entry's stored
   * vertex is looked up through its first incoming edge, and an entry with
   * labels is replaced by its test, which takes over the entry's incoming and
   * outgoing edges.
   */
  method EntryCondition(g: Graph, q: seq<nat>, labels: seq<Expr>, serial: nat) returns (r: Result<Graph, ConvertError>)
    requires Valid(g)
    ensures At(q) !in g.vertices ==> r == Err(NoSuchVertex)
    ensures At(q) in g.vertices && Incoming(g, At(q)) == [] ==> r == Err(NoSuchElement)
    ensures At(q) in g.vertices && Incoming(g, At(q)) != [] && |labels| == 0 ==> r == Ok(g)
    ensures var k := At(q);
            k in g.vertices && Incoming(g, k) != [] && |labels| > 0 ==>
            var c := EntrySource(g, q, labels, serial);
            r == Ok(RemoveVertex(RerouteOutgoing(RerouteIncoming(AddVertex(g, c, Unlabelled), k, c), k, c), k))
    ensures r.Ok? ==> Valid(r.value) && At(q) in g.vertices && EntrySource(g, q, labels, serial) in r.value.vertices
  {
    var k := At(q);
    if k !in g.vertices {
      return Err(NoSuchVertex);
    }
    if Incoming(g, k) == [] {
      return Err(NoSuchElement);
    }
    if |labels| == 0 {
      return Ok(g);
    }
    var c := EntrySource(g, q, labels, serial);
    var h1 := AddVertex(g, c, Unlabelled);
    RerouteIncomingValid(h1, k, c);
    var h2 := RerouteIncomingEdges(h1, k, c);
    RerouteOutgoingValid(h2, k, c);
    var h3 := RerouteOutgoingEdges(h2, k, c);
    r := Ok(RemoveVertex(h3, k));
  }

  /** One remapped edge: `x` is removed and its source joined to `to` by a true edge. */
  function RemapOne(g: Graph, x: FlowEdge, to: Key): (r: Graph)
    requires x.source in g.vertices && to in g.vertices
    ensures r.vertices == g.vertices && (Valid(g) ==> Valid(r))
  {
    AddEdge(RemoveEdge(g, x), x.source, to, Some(true))
  }

  /** The edges `rs` remapped in order. */
  function Remapped(g: Graph, rs: seq<FlowEdge>, to: Key): (r: Graph)
    requires to in g.vertices && forall x | x in rs :: x.source in g.vertices
    ensures r.vertices == g.vertices && (Valid(g) ==> Valid(r))
    decreases |rs|
  {
    if |rs| == 0 then g
    else
      assert forall x | x in rs[..|rs| - 1] :: x in rs;
      RemapOne(Remapped(g, rs[..|rs| - 1], to), rs[|rs| - 1], to)
  }

  /** One remapping step: `x` goes, the rest stays, and only a true edge into `to` may come. */
  lemma RemapOneFacts(g: Graph, x: FlowEdge, to: Key)
    requires x.source in g.vertices && to in g.vertices
    ensures var r := RemapOne(g, x, to);
            && Linked(r.edges, x.source, to)
            && (forall y | y in g.edges && y != x :: y in r.edges)
            && (forall y | y in r.edges :: (y in g.edges && y != x) || y == FlowEdge(x.source, to, Some(true)))
  {
  }

  /**
   * After remapping, every source of a remapped edge is joined to `to`, a
   * remapped edge survives only when it already led to `to`, and every new
   * edge is a true edge into `to`.
   */
  lemma {:induction false} RemappedMeaning(g: Graph, rs: seq<FlowEdge>, to: Key)
    requires to in g.vertices && forall x | x in rs :: x.source in g.vertices
    ensures forall x | x in rs :: Linked(Remapped(g, rs, to).edges, x.source, to)
    ensures forall x | x in rs && x in Remapped(g, rs, to).edges :: x.target == to
    ensures forall y | y in Remapped(g, rs, to).edges && y !in g.edges :: y.target == to && y.flowCondition == Some(true)
    decreases |rs|
  {
    if |rs| > 0 {
      var front, x := rs[..|rs| - 1], rs[|rs| - 1];
      assert forall y | y in front :: y in rs;
      assert forall y | y in rs :: y in front || y == x;
      RemappedMeaning(g, front, to);
      var h := Remapped(g, front, to);
      var r := RemapOne(h, x, to);
      assert r == Remapped(g, rs, to);
      RemapOneFacts(h, x, to);
      forall y | y in rs ensures Linked(r.edges, y.source, to) {
        if y != x {
          var w :| w in h.edges && w.source == y.source && w.target == to;
          if w != x {
            assert w in r.edges;
          }
        }
      }
    }
  }

  /** The remapping loop of a switch entry. */
  method RemapEdges(g: Graph, rs: seq<FlowEdge>, to: Key) returns (r: Graph)
    requires Valid(g) && to in g.vertices && forall x | x in rs :: x.source in g.vertices
    ensures r == Remapped(g, rs, to)
  {
    r := g;
    var i := 0;
    while i < |rs|
      invariant 0 <= i <= |rs|
      invariant forall x | x in rs[..i] :: x.source in g.vertices
      invariant r == Remapped(g, rs[..i], to)
    {
      assert rs[..i + 1][..i] == rs[..i];
      assert forall x | x in rs[..i + 1] :: x in rs;
      r := RemapOne(r, rs[i], to);
      i := i + 1;
    }
    assert rs[..|rs|] == rs;
  }

  /** The true edges into `k`. */
  function TrueIncoming(g: Graph, k: Key): (r: seq<FlowEdge>)
    ensures forall x | x in r :: x in g.edges && x.target == k && x.flowCondition == Some(true)
    ensures forall x | x in g.edges && x.target == k && x.flowCondition == Some(true) :: x in r
  {
    Select(Incoming(g, k), Tagged(Some(true)))
  }

  /**
   * The second half of visiting a switch entry entered through `src`: its `m`
   * statements are chained, the last leading by a true edge to what `src`
   * led to; the true edges into `src`, falling through from the entry before,
   * are remapped to the first statement (or to the successor when there is
   * none); and `src` leads there too, by a true edge when the entry has
   * labels.
   */
  method ExpandEntry(g: Graph, q: seq<nat>, src: Key, m: nat, labelled: bool) returns (r: Result<Graph, ConvertError>)
    requires Valid(g)
    ensures r.Err? <==> ScaffoldEdge(g, src).Err?
    ensures r.Err? ==> r.error == ScaffoldEdge(g, src).error
    ensures r.Ok? ==> Valid(r.value)
    ensures var tag := if labelled then Some(true) else None;
            ScaffoldEdge(g, src).Ok? && m == 0 ==>
            var t := ScaffoldEdge(g, src).value.target;
            var h := Remapped(g, TrueIncoming(g, src), t);
            src in h.vertices && t in h.vertices && r == Ok(AddEdge(h, src, t, tag))
    ensures var tag, ks := (if labelled then Some(true) else None), Children(q + [1], m);
            ScaffoldEdge(g, src).Ok? && m > 0 && AllAbsent(g, ks) ==>
            var t := ScaffoldEdge(g, src).value.target;
            var h0 := Graph(WithVertices(g.vertices, ks, Unlabelled), g.edges + Chain(ks, None) + [FlowEdge(ks[m - 1], t, Some(true))]);
            src in h0.vertices && ks[0] in h0.vertices && (forall x | x in TrueIncoming(h0, src) :: x.source in h0.vertices)
            && var h := Remapped(h0, TrueIncoming(h0, src), ks[0]);
               r == Ok(AddEdge(h, src, ks[0], tag))
  {
    var e :- ScaffoldEdge(g, src);
    var t := e.target;
    var to, h;
    if m == 0 {
      to, h := t, g;
    } else {
      var ks := Children(q + [1], m);
      var h1 := AddChain(g, None, ks, Unlabelled, None);
      h := AddEdge(h1, ks[m - 1], t, Some(true));
      to := ks[0];
      if AllAbsent(g, ks) {
        ChildrenAreDistinct(q + [1], m);
        assert Seed(None) + ks == ks && [] + ks == ks;
        ChainLastFree(g, [], ks, t, None);
      }
    }
    var rs := TrueIncoming(h, src);
    var h2 := RemapEdges(h, rs, to);
    r := Ok(AddEdge(h2, src, to, if labelled then Some(true) else None));
  }

  /**
   * The end of visiting a `default` entry: what entered its vertex enters
   * the target of the vertex's first untagged edge, and the vertex is removed.
   */
  method FinishDefault(g: Graph, src: Key) returns (r: Result<Graph, ConvertError>)
    requires Valid(g)
    ensures src !in g.vertices ==> r == Err(NoSuchVertex)
    ensures src in g.vertices && FirstWithTag(Outgoing(g, src), None).None? ==> r == Err(NoSuchElement)
    ensures var x := FirstWithTag(Outgoing(g, src), None);
            src in g.vertices && x.Some? ==> x.value.target in g.vertices && r == Ok(RemoveVertex(RerouteIncoming(g, src, x.value.target), src))
    ensures r.Ok? ==> Valid(r.value) && src !in r.value.vertices
  {
    if src !in g.vertices {
      return Err(NoSuchVertex);
    }
    var x := FirstWithTag(Outgoing(g, src), None);
    if x.None? {
      return Err(NoSuchElement);
    }
    var h := Replace(g, src, x.value.target);
    r := Ok(h);
  }

  // For loops

  /** The init expressions, then the compare expression when there is one: the chain a for loop starts with. */
  function ForChainKeys(p: seq<nat>, ni: nat, hasCompare: bool): seq<Key>
  {
    Children(p + [0], ni) + (if hasCompare then [At(p + [1])] else [])
  }

  /** Every vertex a for loop at `p` adds: the chain, the body, the updates. */
  function ForKeys(p: seq<nat>, ni: nat, hasCompare: bool, nu: nat): seq<Key>
  {
    ForChainKeys(p, ni, hasCompare) + [At(p + [3])] + Children(p + [2], nu)
  }

  /** Where a for loop is entered: its first init, else its compare, else its body. */
  function ForStart(p: seq<nat>, ni: nat, hasCompare: bool): Key
  {
    if ni > 0 then At(p + [0] + [0]) else if hasCompare then At(p + [1]) else At(p + [3])
  }

  /** What a for loop's true edge leads to: its last update, else its compare, else its body. */
  function ForTrueTarget(p: seq<nat>, hasCompare: bool, nu: nat): Key
  {
    if nu > 0 then At(p + [2] + [nu - 1]) else if hasCompare then At(p + [1]) else At(p + [3])
  }

  /** What leads back to the loop's vertex: the last update, else the body. */
  function ForLast(p: seq<nat>, nu: nat): Key
  {
    if nu > 0 then At(p + [2] + [nu - 1]) else At(p + [3])
  }

  /** The children of the `c`th child of `p` lie below that child. */
  lemma ChildrenBelow(p: seq<nat>, c: nat, n: nat)
    ensures forall k | k in Children(p + [c], n) :: k.NodeKey? && k.id.AstPath? && |k.id.path| > |p| && k.id.path[|p|] == c
  {
    forall k | k in Children(p + [c], n) ensures k.NodeKey? && k.id.AstPath? && |k.id.path| > |p| && k.id.path[|p|] == c {
      var i :| 0 <= i < n && Children(p + [c], n)[i] == k;
      assert k.id.path == p + [c] + [i];
    }
  }

  lemma DistinctJoin(a: seq<Key>, b: seq<Key>)
    requires Distinct(a) && Distinct(b) && forall x | x in a :: x !in b
    ensures Distinct(a + b)
  {
    forall i, j | 0 <= i < j < |a + b| ensures (a + b)[i] != (a + b)[j] {
      if i < |a| && j >= |a| {
        assert (a + b)[i] in a && (a + b)[j] == b[j - |a|];
      } else if i >= |a| {
        assert (a + b)[i] == b[i - |a|] && (a + b)[j] == b[j - |a|];
      }
    }
  }

  /** The vertices of a for loop are distinct. */
  lemma ForKeysDistinct(p: seq<nat>, ni: nat, hasCompare: bool, nu: nat)
    ensures Distinct(ForKeys(p, ni, hasCompare, nu))
  {
    var inits, ups, d, b := Children(p + [0], ni), Children(p + [2], nu), At(p + [1]), At(p + [3]);
    ChildrenAreDistinct(p + [0], ni);
    ChildrenAreDistinct(p + [2], nu);
    ChildrenBelow(p, 0, ni);
    ChildrenBelow(p, 2, nu);
    assert d.id.path[|p|] == 1 && b.id.path[|p|] == 3;
    var mid := if hasCompare then [d] else [];
    DistinctJoin(inits, mid);
    DistinctJoin(inits + mid, [b]);
    assert forall x | x in inits + mid + [b] :: x.id.path[|p|] != 2;
    DistinctJoin(inits + mid + [b], ups);
  }

  lemma DistinctSplit(a: seq<Key>, b: seq<Key>)
    requires Distinct(a + b)
    ensures Distinct(a) && Distinct(b) && forall x | x in a :: x !in b
  {
    forall i, j | 0 <= i < j < |a| ensures a[i] != a[j] {
      assert a[i] == (a + b)[i] && a[j] == (a + b)[j];
    }
    forall i, j | 0 <= i < j < |b| ensures b[i] != b[j] {
      assert b[i] == (a + b)[|a| + i] && b[j] == (a + b)[|a| + j];
    }
    forall i, j | 0 <= i < |a| && 0 <= j < |b| ensures a[i] != b[j] {
      assert a[i] == (a + b)[i] && b[j] == (a + b)[|a| + j];
    }
  }

  lemma {:induction false} WithVerticesAppend(m: map<Key, VertexData>, a: seq<Key>, b: seq<Key>, d: VertexData)
    ensures WithVertices(WithVertices(m, a, d), b, d) == WithVertices(m, a + b, d)
    decreases |b|
  {
    if |b| > 0 {
      WithVerticesAppend(m, a, b[..|b| - 1], d);
      assert (a + b)[..|a + b| - 1] == a + b[..|b| - 1];
      assert (a + b)[|a + b| - 1] == b[|b| - 1];
    } else {
      assert a + b == a;
    }
  }

  /** The last vertex of a chain of new vertices has no outgoing edge. */
  lemma ChainLastNoOutgoing(g: Graph, ks: seq<Key>, c: Option<bool>)
    requires Valid(g) && |ks| > 0 && Distinct(ks) && AllAbsent(g, ks)
    ensures Select(g.edges + Chain(ks, c), From(ks[|ks| - 1])) == []
  {
    var last := ks[|ks| - 1];
    AbsentUntouched(g, last);
    FreshSelect(g.edges, Chain(ks, c), last);
    ChainSources(ks, c, last);
    SelectNone(Chain(ks, c), From(last));
  }

  /** The edges a for loop's header adds. */
  function ForHeaderEdges(p: seq<nat>, t: Key, ni: nat, hasCompare: bool): seq<FlowEdge>
  {
    Chain(ForChainKeys(p, ni, hasCompare), None) + (if hasCompare then DecisionEdges(At(p + [1]), At(p + [3]), t) else [])
  }

  /**
   * The first part of visiting a for loop at `p` whose successor is `t`: the
   * `ni` init expressions and the compare, when there is one, in a chain, the
   * body's vertex, and the compare as a decision true to the body and false to
   * `t`.
   */
  method ForHeader(g: Graph, p: seq<nat>, t: Key, ni: nat, hasCompare: bool) returns (r: Graph)
    requires Valid(g) && t in g.vertices
    ensures Valid(r) && (forall k | k in g.vertices :: k in r.vertices)
    ensures (forall k | k in ForChainKeys(p, ni, hasCompare) :: k in r.vertices) && At(p + [3]) in r.vertices
    ensures var cks, b := ForChainKeys(p, ni, hasCompare), At(p + [3]);
            Distinct(cks + [b]) && AllAbsent(g, cks + [b]) ==>
            && r.vertices == WithVertices(g.vertices, cks + [b], Unlabelled)
            && r.edges == g.edges + ForHeaderEdges(p, t, ni, hasCompare)
  {
    var cks, b, d := ForChainKeys(p, ni, hasCompare), At(p + [3]), At(p + [1]);
    var h1 := AddChain(g, None, cks, Unlabelled, None);
    var h2 := AddVertex(h1, b, Unlabelled);
    if hasCompare {
      assert d in cks;
      r := AddDecisionNode(h2, d, b, t);
    } else {
      r := h2;
    }
    if Distinct(cks + [b]) && AllAbsent(g, cks + [b]) {
      DistinctSplit(cks, [b]);
      assert Seed(None) + cks == cks;
      ForHeaderShape(g, p, ni, cks, b, d, t, hasCompare, h1, h2, r);
    }
  }

  /** The shape of `ForHeader` on new vertices, from those of its steps. */
  lemma ForHeaderShape(g: Graph, p: seq<nat>, ni: nat, cks: seq<Key>, b: Key, d: Key, t: Key, hasCompare: bool, h1: Graph, h2: Graph, r: Graph)
    requires cks == ForChainKeys(p, ni, hasCompare) && b == At(p + [3]) && d == At(p + [1])
    requires Valid(g) && Distinct(cks) && AllAbsent(g, cks + [b]) && b !in cks
    requires hasCompare ==> |cks| > 0 && cks[|cks| - 1] == d
    requires h1.vertices == WithVertices(g.vertices, cks, Unlabelled) && h1.edges == g.edges + Chain(cks, None)
    requires h2 == AddVertex(h1, b, Unlabelled)
    requires !hasCompare ==> r == h2
    requires hasCompare ==> d in h2.vertices && r.vertices == h2.vertices
    requires hasCompare && Outgoing(h2, d) == [] ==> r.edges == h2.edges + DecisionEdges(d, b, t)
    ensures r.vertices == WithVertices(g.vertices, cks + [b], Unlabelled)
    ensures r.edges == g.edges + ForHeaderEdges(p, t, ni, hasCompare)
  {
    assert forall k | k in cks :: k in cks + [b];
    WithVerticesKeys(g.vertices, cks, Unlabelled, b);
    assert (cks + [b])[..|cks|] == cks;
    if hasCompare {
      ChainLastNoOutgoing(g, cks, None);
    }
    ForHeaderEdgesSplit(g.edges, p, t, ni, hasCompare);
  }

  lemma ForHeaderEdgesSplit(es: seq<FlowEdge>, p: seq<nat>, t: Key, ni: nat, hasCompare: bool)
    ensures es + ForHeaderEdges(p, t, ni, hasCompare)
            == es + Chain(ForChainKeys(p, ni, hasCompare), None) + (if hasCompare then DecisionEdges(At(p + [1]), At(p + [3]), t) else [])
  {
  }

  /**
   * The second part: the `nu` update expressions chained from the body, the
   * last of them (or the body) back to the loop's vertex `s`, which leads to
   * the loop's start, by a true edge to the last update (or the decision),
   * and by a false edge to the successor in place of `e`.
   */
  method ForTail(g: Graph, p: seq<nat>, e: FlowEdge, ni: nat, hasCompare: bool, nu: nat) returns (r: Graph)
    requires Valid(g) && e.source in g.vertices && e.target in g.vertices && At(p + [3]) in g.vertices
    requires ForStart(p, ni, hasCompare) in g.vertices && ForTrueTarget(p, hasCompare, 0) in g.vertices
    ensures Valid(r) && (forall k | k in g.vertices :: k in r.vertices)
    ensures var s, t, b, ups := e.source, e.target, At(p + [3]), Children(p + [2], nu);
            var start, tt := ForStart(p, ni, hasCompare), ForTrueTarget(p, hasCompare, nu);
            && Distinct(ups) && AllAbsent(g, ups) && e in g.edges && Outgoing(g, b) == [] && Outgoing(g, s) == [e]
            && s != b && start != t && tt != t ==>
            && r.vertices == WithVertices(g.vertices, ups, Unlabelled)
            && r.edges == Select(g.edges + Chain([b] + ups, None) + [FlowEdge(ForLast(p, nu), s, None)] + [FlowEdge(s, start, None)]
                                   + (if tt == start then [] else [FlowEdge(s, tt, Some(true))]), Except(e))
                          + [FlowEdge(s, t, Some(false))]
  {
    var s, t, b, ups := e.source, e.target, At(p + [3]), Children(p + [2], nu);
    var start, tt, last := ForStart(p, ni, hasCompare), ForTrueTarget(p, hasCompare, nu), ForLast(p, nu);
    var h1 := AddChain(g, Some(b), ups, Unlabelled, None);
    assert last in h1.vertices && tt in h1.vertices;
    var h2 := AddEdge(h1, last, s, None);
    var h3 := AddEdge(h2, s, start, None);
    var h4 := AddEdge(h3, s, tt, Some(true));
    r := MarkExit(h4, e);
    if && Distinct(ups) && AllAbsent(g, ups) && e in g.edges && Outgoing(g, b) == [] && Outgoing(g, s) == [e]
       && s != b && start != t && tt != t {
      assert Seed(Some(b)) + ups == [b] + ups;
      ForTailShape(g, e, b, ups, last, start, tt, h1, h2, h3, h4);
    }
  }

  /** The edges of `ForTail` on new update vertices, from those of its steps. */
  lemma ForTailShape(g: Graph, e: FlowEdge, b: Key, ups: seq<Key>, last: Key, start: Key, tt: Key, h1: Graph, h2: Graph, h3: Graph, h4: Graph)
    requires Valid(g) && Distinct(ups) && AllAbsent(g, ups) && e in g.edges && Outgoing(g, b) == [] && Outgoing(g, e.source) == [e]
    requires e.source != b && start != e.target && tt != e.target && b in g.vertices
    requires last == if |ups| > 0 then ups[|ups| - 1] else b
    requires h1.edges == g.edges + Chain([b] + ups, None)
    requires last in h1.vertices && e.source in h1.vertices && start in h1.vertices && tt in h1.vertices
    requires h2 == AddEdge(h1, last, e.source, None) && h3 == AddEdge(h2, e.source, start, None)
    requires h4 == AddEdge(h3, e.source, tt, Some(true))
    ensures h4.edges == g.edges + Chain([b] + ups, None) + [FlowEdge(last, e.source, None)] + [FlowEdge(e.source, start, None)]
                        + (if tt == start then [] else [FlowEdge(e.source, tt, Some(true))])
  {
    var s := e.source;
    var chain := Chain([b] + ups, None);
    SoleOutgoing(g, s, e);
    assert s !in ups;
    ChainSources([b] + ups, None, s) by {
      forall i | 0 <= i < |[b] + ups| - 1 ensures ([b] + ups)[i] != s {
        if i > 0 { assert ([b] + ups)[i] == ups[i - 1]; }
      }
    }
    if |ups| > 0 {
      ChainLastFree(g, [b], ups, s, None);
    } else {
      assert chain == [];
      NoOutgoingNotLinked(g, b, s);
    }
    assert !Linked(g.edges, s, start) && !Linked(g.edges, s, tt) by {
      forall x | x in g.edges && x.source == s ensures x == e {}
    }
    NotLinkedExtra(g.edges, chain, s, start);
    NotLinkedExtra(g.edges + chain, [FlowEdge(last, s, None)], s, start);
    if tt != start {
      NotLinkedExtra(g.edges, chain, s, tt);
      NotLinkedExtra(g.edges + chain, [FlowEdge(last, s, None)], s, tt);
      NotLinkedExtra(h2.edges, [FlowEdge(s, start, None)], s, tt);
    }
  }

  /** No edge of a for loop's header leaves a vertex other than its init, compare and decision vertices. */
  lemma ForHeaderEdgesFrom(p: seq<nat>, t: Key, ni: nat, hasCompare: bool, k: Key)
    requires k !in ForChainKeys(p, ni, hasCompare) && k != At(p + [1])
    ensures Select(ForHeaderEdges(p, t, ni, hasCompare), From(k)) == []
  {
    var cks := ForChainKeys(p, ni, hasCompare);
    var dec := if hasCompare then DecisionEdges(At(p + [1]), At(p + [3]), t) else [];
    ChainSources(cks, None, k);
    SelectAppend(Chain(cks, None), dec, From(k));
    SelectNone(Chain(cks, None), From(k));
    SelectNone(dec, From(k));
  }

  /** After the header, the body has no outgoing edge and the loop's vertex still only `e`. */
  lemma ForHeaderOutgoing(g: Graph, p: seq<nat>, e: FlowEdge, ni: nat, hasCompare: bool, h: Graph)
    requires Valid(g) && Outgoing(g, At(p)) == [e] && At(p + [3]) !in g.vertices
    requires h.edges == g.edges + ForHeaderEdges(p, e.target, ni, hasCompare)
    ensures e in h.edges && Outgoing(h, At(p + [3])) == [] && Outgoing(h, At(p)) == [e]
  {
    var s, b := At(p), At(p + [3]);
    var extra := ForHeaderEdges(p, e.target, ni, hasCompare);
    SoleOutgoing(g, s, e);
    ChildrenBelow(p, 0, ni);
    assert b !in ForChainKeys(p, ni, hasCompare) by {
      forall k | k in ForChainKeys(p, ni, hasCompare) ensures k != b {
        assert k == At(p + [1]) || k.id.path[|p|] == 0;
      }
    }
    assert s !in ForChainKeys(p, ni, hasCompare) by {
      forall k | k in ForChainKeys(p, ni, hasCompare) ensures k != s {
        assert |k.id.path| > |p|;
      }
    }
    assert |p + [1]| != |p| && (p + [3])[|p|] != (p + [1])[|p|];
    ForHeaderEdgesFrom(p, e.target, ni, hasCompare, b);
    ForHeaderEdgesFrom(p, e.target, ni, hasCompare, s);
    AbsentUntouched(g, b);
    FreshSelect(g.edges, extra, b);
    SelectAppend(g.edges, extra, From(s));
  }

  /** How the fresh keys of a for loop split into those of its header and those of its updates. */
  lemma ForKeysSplit(p: seq<nat>, ni: nat, hasCompare: bool, nu: nat)
    ensures var hks, ups := ForChainKeys(p, ni, hasCompare) + [At(p + [3])], Children(p + [2], nu);
            Distinct(hks) && Distinct(ups) && (forall k | k in ups :: k !in hks)
  {
    ForKeysDistinct(p, ni, hasCompare, nu);
    DistinctSplit(ForChainKeys(p, ni, hasCompare) + [At(p + [3])], Children(p + [2], nu));
  }

  /** The new vertices of a for loop's tail, and its other side conditions, from the loop's fresh keys. */
  lemma ForUpdatesFree(g: Graph, p: seq<nat>, t: Key, ni: nat, hasCompare: bool, nu: nat, h: Graph)
    requires t in g.vertices && AllAbsent(g, ForKeys(p, ni, hasCompare, nu))
    requires h.vertices == WithVertices(g.vertices, ForChainKeys(p, ni, hasCompare) + [At(p + [3])], Unlabelled)
    ensures AllAbsent(h, Children(p + [2], nu))
    ensures ForStart(p, ni, hasCompare) != t && ForTrueTarget(p, hasCompare, nu) != t
  {
    var hks, ups := ForChainKeys(p, ni, hasCompare) + [At(p + [3])], Children(p + [2], nu);
    ForKeysSplit(p, ni, hasCompare, nu);
    forall k | k in ups ensures k !in h.vertices {
      WithVerticesKeys(g.vertices, hks, Unlabelled, k);
      assert k in ForKeys(p, ni, hasCompare, nu);
    }
    assert ForStart(p, ni, hasCompare) in ForKeys(p, ni, hasCompare, nu);
    assert ForTrueTarget(p, hasCompare, nu) in ForKeys(p, ni, hasCompare, nu);
  }

  /**
   * The first half of visiting a for loop at `p` whose vertex has the single
   * edge `e`, with `ni` init expressions, a compare or none, and `nu` update
   * expressions: the header, then the tail.
   */
  method ExpandFor(g: Graph, p: seq<nat>, e: FlowEdge, ni: nat, hasCompare: bool, nu: nat) returns (r: Graph)
    requires Valid(g) && Outgoing(g, At(p)) == [e]
    ensures Valid(r) && At(p) in r.vertices
    ensures var s, t := At(p), e.target;
            var b, ups, start, tt := At(p + [3]), Children(p + [2], nu), ForStart(p, ni, hasCompare), ForTrueTarget(p, hasCompare, nu);
            AllAbsent(g, ForKeys(p, ni, hasCompare, nu)) ==>
            && r.vertices == WithVertices(g.vertices, ForKeys(p, ni, hasCompare, nu), Unlabelled)
            && r.edges == Select(g.edges + ForHeaderEdges(p, t, ni, hasCompare) + Chain([b] + ups, None)
                                   + [FlowEdge(ForLast(p, nu), s, None)] + [FlowEdge(s, start, None)]
                                   + (if tt == start then [] else [FlowEdge(s, tt, Some(true))]), Except(e))
                          + [FlowEdge(s, t, Some(false))]
  {
    var s, t := At(p), e.target;
    SoleOutgoing(g, s, e);
    var h := ForHeader(g, p, t, ni, hasCompare);
    var cks := ForChainKeys(p, ni, hasCompare);
    assert ForStart(p, ni, hasCompare) in cks + [At(p + [3])] && ForTrueTarget(p, hasCompare, 0) in cks + [At(p + [3])];
    r := ForTail(h, p, e, ni, hasCompare, nu);
    if AllAbsent(g, ForKeys(p, ni, hasCompare, nu)) {
      assert AllAbsent(g, cks + [At(p + [3])]) by {
        forall k | k in cks + [At(p + [3])] ensures k in ForKeys(p, ni, hasCompare, nu) {}
      }
      ForKeysSplit(p, ni, hasCompare, nu);
      ForShape(g, p, e, ni, hasCompare, nu, h, r);
    }
  }

  /** The shape of `ExpandFor` on fresh keys, from those of its header and its tail. */
  lemma ForShape(g: Graph, p: seq<nat>, e: FlowEdge, ni: nat, hasCompare: bool, nu: nat, h: Graph, r: Graph)
    requires Valid(g) && Outgoing(g, At(p)) == [e] && AllAbsent(g, ForKeys(p, ni, hasCompare, nu))
    requires var hks := ForChainKeys(p, ni, hasCompare) + [At(p + [3])];
             h.vertices == WithVertices(g.vertices, hks, Unlabelled) && h.edges == g.edges + ForHeaderEdges(p, e.target, ni, hasCompare)
    requires var s, t, b, ups := At(p), e.target, At(p + [3]), Children(p + [2], nu);
             var start, tt := ForStart(p, ni, hasCompare), ForTrueTarget(p, hasCompare, nu);
             && Distinct(ups) && AllAbsent(h, ups) && e in h.edges && Outgoing(h, b) == [] && Outgoing(h, s) == [e]
             && s != b && start != t && tt != t ==>
             && r.vertices == WithVertices(h.vertices, ups, Unlabelled)
             && r.edges == Select(h.edges + Chain([b] + ups, None) + [FlowEdge(ForLast(p, nu), s, None)] + [FlowEdge(s, start, None)]
                                    + (if tt == start then [] else [FlowEdge(s, tt, Some(true))]), Except(e))
                           + [FlowEdge(s, t, Some(false))]
    ensures var s, t := At(p), e.target;
            var b, ups, start, tt := At(p + [3]), Children(p + [2], nu), ForStart(p, ni, hasCompare), ForTrueTarget(p, hasCompare, nu);
            && r.vertices == WithVertices(g.vertices, ForKeys(p, ni, hasCompare, nu), Unlabelled)
            && r.edges == Select(g.edges + ForHeaderEdges(p, t, ni, hasCompare) + Chain([b] + ups, None)
                                   + [FlowEdge(ForLast(p, nu), s, None)] + [FlowEdge(s, start, None)]
                                   + (if tt == start then [] else [FlowEdge(s, tt, Some(true))]), Except(e))
                          + [FlowEdge(s, t, Some(false))]
  {
    SoleOutgoing(g, At(p), e);
    ForKeysSplit(p, ni, hasCompare, nu);
    ForUpdatesFree(g, p, e.target, ni, hasCompare, nu, h);
    ForHeaderOutgoing(g, p, e, ni, hasCompare, h);
    assert |p + [3]| != |p|;
    WithVerticesAppend(g.vertices, ForChainKeys(p, ni, hasCompare) + [At(p + [3])], Children(p + [2], nu), Unlabelled);
  }

  /**
   * The end of visiting a for loop: when the loop's vertex still has an
   * untagged edge, what entered the vertex enters that edge's target and the
   * vertex is removed; otherwise the graph stays as it is.
   */
  method FinishFor(g: Graph, s: Key) returns (r: Result<Graph, ConvertError>)
    requires Valid(g)
    ensures s !in g.vertices ==> r == Err(NoSuchVertex)
    ensures s in g.vertices && FirstWithTag(Outgoing(g, s), None).None? ==> r == Ok(g)
    ensures var x := FirstWithTag(Outgoing(g, s), None);
            s in g.vertices && x.Some? ==> x.value.target in g.vertices && r == Ok(RemoveVertex(RerouteIncoming(g, s, x.value.target), s))
    ensures r.Ok? ==> Valid(r.value)
  {
    if s !in g.vertices {
      return Err(NoSuchVertex);
    }
    var x := FirstWithTag(Outgoing(g, s), None);
    if x.None? {
      return Ok(g);
    }
    var h := Replace(g, s, x.value.target);
    r := Ok(h);
  }

  /**
   * The end of visiting a do loop: what entered the loop's vertex also enters
   * the target of its first untagged edge; the vertex itself stays.
   */
  method FinishDo(g: Graph, s: Key) returns (r: Result<Graph, ConvertError>)
    requires Valid(g)
    ensures s !in g.vertices ==> r == Err(NoSuchVertex)
    ensures s in g.vertices && FirstWithTag(Outgoing(g, s), None).None? ==> r == Err(NoSuchElement)
    ensures var x := FirstWithTag(Outgoing(g, s), None);
            s in g.vertices && x.Some? ==> x.value.target in g.vertices && r == Ok(RerouteIncoming(g, s, x.value.target))
    ensures r.Ok? ==> Valid(r.value) && s in r.value.vertices
  {
    if s !in g.vertices {
      return Err(NoSuchVertex);
    }
    var x := FirstWithTag(Outgoing(g, s), None);
    if x.None? {
      return Err(NoSuchElement);
    }
    RerouteIncomingValid(g, s, x.value.target);
    var h := RerouteIncomingEdges(g, s, x.value.target);
    r := Ok(h);
  }

  /** The vertex a method's flow enters from. */
  const Entry: Key := NameKey("before")

  /** The method declaration's vertex and its body's. */
  const MethodKey: Key := At([])
  const BodyKey: Key := At([0])

  /**
   * The start of visiting a method declaration: the entry, the exit and the
   * declaration's vertex, an edge from the entry to the declaration; a method
   * without a body is an error at that point; otherwise the body's vertex
   * between the declaration and the exit.
   */
  method ExpandMethod(g: Graph, hasBody: bool) returns (r: Result<Graph, ConvertError>)
    requires Valid(g)
    ensures r.Err? <==> !hasBody
    ensures r.Err? ==> r.error == MissingMethodBody
    ensures r.Ok? ==> Valid(r.value) && Entry in r.value.vertices && Exit in r.value.vertices
                      && MethodKey in r.value.vertices && BodyKey in r.value.vertices
    ensures var ks := [Entry, MethodKey, BodyKey, Exit];
            r.Ok? && AllAbsent(g, ks) ==>
            r.value == Graph(WithVertices(g.vertices, ks, Unlabelled), g.edges + Chain(ks, None))
  {
    var h1 := AddVertex(g, Entry, Unlabelled);
    var h2 := AddVertex(h1, Exit, Unlabelled);
    var h3 := AddVertex(h2, MethodKey, Unlabelled);
    var h4 := AddEdge(h3, Entry, MethodKey, None);
    if !hasBody {
      return Err(MissingMethodBody);
    }
    var h5 := AddVertex(h4, BodyKey, Unlabelled);
    var h6 := AddEdge(h5, MethodKey, BodyKey, None);
    var h7 := AddEdge(h6, BodyKey, Exit, None);
    r := Ok(h7);
    if AllAbsent(g, [Entry, MethodKey, BodyKey, Exit]) {
      MethodShape(g, h3, h4, h5, h6, h7);
    }
  }

  /** The shape of `ExpandMethod` on a graph without its four vertices, from those of its steps. */
  lemma MethodShape(g: Graph, h3: Graph, h4: Graph, h5: Graph, h6: Graph, h7: Graph)
    requires Valid(g) && AllAbsent(g, [Entry, MethodKey, BodyKey, Exit])
    requires h3 == Graph(g.vertices[Entry := Unlabelled][Exit := Unlabelled][MethodKey := Unlabelled], g.edges)
    requires h4 == AddEdge(h3, Entry, MethodKey, None)
    requires h5 == AddVertex(h4, BodyKey, Unlabelled) && MethodKey in h5.vertices && Exit in h5.vertices
    requires h6 == AddEdge(h5, MethodKey, BodyKey, None) && h7 == AddEdge(h6, BodyKey, Exit, None)
    ensures var ks := [Entry, MethodKey, BodyKey, Exit];
            h7 == Graph(WithVertices(g.vertices, ks, Unlabelled), g.edges + Chain(ks, None))
  {
    var ks := [Entry, MethodKey, BodyKey, Exit];
    assert MethodKey != BodyKey by {
      assert MethodKey.id.path == [] && BodyKey.id.path == [0];
    }
    AbsentUntouched(g, Entry);
    AbsentUntouched(g, MethodKey);
    AbsentUntouched(g, BodyKey);
    var e1, e2, e3 := FlowEdge(Entry, MethodKey, None), FlowEdge(MethodKey, BodyKey, None), FlowEdge(BodyKey, Exit, None);
    assert !Linked(g.edges, Entry, MethodKey) && !Linked(g.edges, MethodKey, BodyKey) && !Linked(g.edges, BodyKey, Exit);
    assert h4.edges == g.edges + [e1];
    NotLinkedExtra(g.edges, [e1], MethodKey, BodyKey);
    assert h6.edges == g.edges + [e1] + [e2];
    NotLinkedExtra(g.edges, [e1] + [e2], BodyKey, Exit);
    assert h7.edges == g.edges + [e1] + [e2] + [e3];
    assert Chain(ks, None) == [e1, e2, e3];
    MethodVertices(g.vertices);
  }

  lemma MethodVertices(m: map<Key, VertexData>)
    ensures WithVertices(m, [Entry, MethodKey, BodyKey, Exit], Unlabelled)
            == m[Entry := Unlabelled][Exit := Unlabelled][MethodKey := Unlabelled][BodyKey := Unlabelled]
  {
    var ks, u := [Entry, MethodKey, BodyKey, Exit], Unlabelled;
    assert ks[..3] == [Entry, MethodKey, BodyKey] && ks[..3][..2] == [Entry, MethodKey] && ks[..3][..2][..1] == [Entry];
    assert WithVertices(m, [Entry], u) == m[Entry := u];
    assert WithVertices(m, [Entry, MethodKey], u) == m[Entry := u][MethodKey := u];
    assert WithVertices(m, [Entry, MethodKey, BodyKey], u) == m[Entry := u][MethodKey := u][BodyKey := u];
  }

  /**
   * The end of visiting a method declaration: what entered the declaration's
   * vertex enters the target of its first outgoing edge, and the declaration's
   * vertex is removed.
   */
  method FinishMethod(g: Graph) returns (r: Result<Graph, ConvertError>)
    requires Valid(g)
    ensures MethodKey !in g.vertices ==> r == Err(NoSuchVertex)
    ensures MethodKey in g.vertices && Outgoing(g, MethodKey) == [] ==> r == Err(NoSuchElement)
    ensures var outs := Outgoing(g, MethodKey);
            MethodKey in g.vertices && outs != [] ==>
            outs[0].target in g.vertices && r == Ok(RemoveVertex(RerouteIncoming(g, MethodKey, outs[0].target), MethodKey))
    ensures r.Ok? ==> Valid(r.value) && MethodKey !in r.value.vertices
  {
    if MethodKey !in g.vertices {
      return Err(NoSuchVertex);
    }
    var outs := Outgoing(g, MethodKey);
    if outs == [] {
      return Err(NoSuchElement);
    }
    FanOutFacts(g, MethodKey);
    var h := Replace(g, MethodKey, outs[0].target);
    r := Ok(h);
  }
}
