/**
 * Lowering of the tagged control tree of one method to its control-flow
 * graph, as the Rust `AstProcessor` does it. The processor walks the tree
 * with a context (the node that follows, the nearest breakable and
 * continuable dummies, the function's sink) and adds nodes and edges to the
 * method graph; dummy sinks stand for targets that are not known yet and are
 * removed once their incoming edges have been moved to the real target.
 * Labels become label nodes that a final pass over the graph resolves.
 */
module AstProcessor {
  import opened Wrappers
  import opened ControlTree
  import opened CfgGraph

  datatype LabelProcessingError = ReturnToLabel | LabelNotImplemented(message: string) | EmptySomeLabel

  datatype MethodProcessingError =
    | NotSupported(message: string)
    | NotAMethod
    | TopLevelAnonMethod
    | TriedToCreateDoForLoop
    | NotImplemented(message: string)
    | LabelProcessing(labelError: LabelProcessingError)
      /** An `unwrap` of an empty value, which aborts the Rust program. */
    | Panicked(reason: string)
      /** A construct this model does not lower (see the README). */
    | Unmodelled(what: string)

  datatype ProcessedNode = Child(node: nat) | Root

  datatype ProcessedBlock = EmptyBlock | StatementBlock(node: nat) | Boundaries(startNode: nat, endNode: nat)

  /** What the processor knows about the surroundings of the node it is lowering. */
  datatype Ctx = Ctx(
    labelNode: Option<nat>,
    mostRecent: Option<nat>,
    breakable: Option<nat>,
    continuable: Option<nat>,
    sink: Option<nat>,
    exceptionNodes: map<string, nat>)

  const BaseCtx: Ctx := Ctx(None, None, None, None, None, map[])

  /** Every node the context names is a node of `g`. */
  predicate CtxIn(ctx: Ctx, g: Graph)
  {
    && (ctx.labelNode.Some? ==> ctx.labelNode.value in g.nodes)
    && (ctx.mostRecent.Some? ==> ctx.mostRecent.value in g.nodes)
    && (ctx.breakable.Some? ==> ctx.breakable.value in g.nodes)
    && (ctx.continuable.Some? ==> ctx.continuable.value in g.nodes)
    && (ctx.sink.Some? ==> ctx.sink.value in g.nodes)
    && (forall e :: e in ctx.exceptionNodes ==> ctx.exceptionNodes[e] in g.nodes)
  }

  /** Whether control leaves a statement by itself, so that it must not fall through to the next one. */
  predicate Exits(node: AstNode)
  {
    || node.contents.ThrowStatement?
    || node.contents.YieldStatement?
    || node.contents.BreakStatement?
    || node.contents.ContinueStatement?
    || node.contents.ReturnStatement?
    || node.contents.DecisionBlock?
    || node.contents.LoopBlock?
  }

  function StartOfBlock(b: ProcessedBlock): Option<nat>
  {
    match b
    case EmptyBlock => None
    case StatementBlock(n) => Some(n)
    case Boundaries(s, _) => Some(s)
  }

  function Head(s: seq<nat>): Option<nat>
  {
    if |s| > 0 then Some(s[0]) else None
  }

  /**
   * The processed form of a block whose statements gave `children` (graph
   * node, whether the statement exits), in source order.
   */
  function Classify(children: seq<(nat, bool)>): (b: ProcessedBlock)
    ensures |children| == 0 <==> b.EmptyBlock?
    ensures |children| == 1 <==> b.StatementBlock?
    ensures |children| >= 2 <==> b.Boundaries?
    ensures StartOfBlock(b) == if |children| == 0 then None else Some(children[0].0)
    ensures b.Boundaries? ==> b.endNode == children[|children| - 1].0
  {
    if |children| == 0 then EmptyBlock
    else if |children| == 1 then StatementBlock(children[0].0)
    else Boundaries(children[0].0, children[|children| - 1].0)
  }

  /** The nodes of the statements that gave one, in source order, each with whether its statement exits. */
  function Children(stmts: seq<AstNode>, results: seq<ProcessedNode>): seq<(nat, bool)>
    requires |stmts| == |results|
  {
    if |stmts| == 0 then []
    else (if results[0].Child? then [(results[0].node, Exits(stmts[0]))] else []) + Children(stmts[1..], results[1..])
  }

  /** One more statement in front adds its node, if it gave one, in front of the children. */
  lemma ChildrenCons(stmts: seq<AstNode>, i: nat, res: ProcessedNode, results: seq<ProcessedNode>)
    requires i < |stmts| && |results| == |stmts| - i - 1
    ensures Children(stmts[i..], [res] + results)
         == (if res.Child? then [(res.node, Exits(stmts[i]))] else []) + Children(stmts[i + 1..], results)
  {
    assert stmts[i..][1..] == stmts[i + 1..];
    assert ([res] + results)[1..] == results;
  }

  /** What a context names stays in a graph that grows. */
  lemma CtxInGrows(ctx: Ctx, g0: Graph, g1: Graph)
    requires CtxIn(ctx, g0) && Grows(g0, g1)
    ensures CtxIn(ctx, g1)
  {
  }

  /** The fall-through edge from `before` to `after`, present only when `before` does not exit. */
  function Link(before: (nat, bool), after: (nat, bool)): seq<GraphEdge>
  {
    if before.1 then [] else [GraphEdge(before.0, after.0, StatementEdge)]
  }

  /** The fall-through edges between consecutive children among the first `k`. */
  function PairLinks(children: seq<(nat, bool)>, k: nat): seq<GraphEdge>
    requires k <= |children|
  {
    if k < 2 then [] else PairLinks(children, k - 1) + Link(children[k - 2], children[k - 1])
  }

  /** The edge from the last child to the node after the block, unless that child exits. */
  function EndLink(children: seq<(nat, bool)>, mostRecent: Option<nat>): seq<GraphEdge>
  {
    if |children| > 0 && !children[|children| - 1].1 && mostRecent.Some?
    then [GraphEdge(children[|children| - 1].0, mostRecent.value, StatementEdge)]
    else []
  }

  /** Every edge a block adds once its statements are lowered. */
  function BlockLinks(children: seq<(nat, bool)>, mostRecent: Option<nat>): seq<GraphEdge>
  {
    PairLinks(children, |children|) + EndLink(children, mostRecent)
  }

  /** A fall-through edge joins the k-th and (k+1)-th of the first `n` children exactly when the k-th does not exit. */
  lemma {:induction false} PairLinksSpec(children: seq<(nat, bool)>, n: nat)
    requires n <= |children|
    ensures forall e :: e in PairLinks(children, n) <==>
      exists k :: 0 <= k && k + 1 < n && !children[k].1
                  && e == GraphEdge(children[k].0, children[k + 1].0, StatementEdge)
  {
    if n >= 2 {
      PairLinksSpec(children, n - 1);
      forall e | e in PairLinks(children, n)
        ensures exists k :: 0 <= k && k + 1 < n && !children[k].1
                            && e == GraphEdge(children[k].0, children[k + 1].0, StatementEdge)
      {
        if e !in PairLinks(children, n - 1) {
          assert e in Link(children[n - 2], children[n - 1]);
          var k := n - 2;
          assert !children[k].1 && e == GraphEdge(children[k].0, children[k + 1].0, StatementEdge);
        }
      }
      forall e | exists k :: 0 <= k && k + 1 < n && !children[k].1
                             && e == GraphEdge(children[k].0, children[k + 1].0, StatementEdge)
        ensures e in PairLinks(children, n)
      {
        var k :| 0 <= k && k + 1 < n && !children[k].1
                 && e == GraphEdge(children[k].0, children[k + 1].0, StatementEdge);
        if k + 1 < n - 1 {
          assert e in PairLinks(children, n - 1);
        } else {
          assert e in Link(children[n - 2], children[n - 1]);
        }
      }
    }
  }

  /**
   * The edges of a block: statement `k` falls through to statement `k+1`
   * exactly when it does not exit, and the last statement falls through to
   * the node after the block exactly when it does not exit and that node is
   * known. Nothing else is added.
   */
  lemma BlockLinksSpec(children: seq<(nat, bool)>, mostRecent: Option<nat>)
    ensures forall e :: e in BlockLinks(children, mostRecent) <==>
      || (exists k :: 0 <= k && k + 1 < |children| && !children[k].1
                      && e == GraphEdge(children[k].0, children[k + 1].0, StatementEdge))
      || (&& |children| > 0 && !children[|children| - 1].1 && mostRecent.Some?
          && e == GraphEdge(children[|children| - 1].0, mostRecent.value, StatementEdge))
  {
    PairLinksSpec(children, |children|);
  }

  // Loop target rules. Each gives the node a part of the loop continues to;
  // `None` where the source unwraps an empty value or makes a fresh dummy.

  /** Where the last update statement goes: the first decision, else the body, else the first update itself. */
  function LoopUpdateTarget(block: ProcessedBlock, decisions: seq<nat>, first: nat): nat
  {
    if |decisions| > 0 then decisions[0]
    else if block.EmptyBlock? then first
    else StartOfBlock(block).value
  }

  /** Where the last initialization statement goes: the decision, else the body, else the update, else the next node. */
  function LoopInitTarget(update: seq<nat>, next: nat, block: ProcessedBlock, decisions: seq<nat>): nat
  {
    if |decisions| > 0 then decisions[0]
    else if StartOfBlock(block).Some? then StartOfBlock(block).value
    else if |update| > 0 then update[0]
    else next
  }

  /** The true target of the loop condition: the body, else the update; `None` makes a dummy sink. */
  function DecisionTrueTarget(update: seq<nat>, block: ProcessedBlock): Option<nat>
  {
    if StartOfBlock(block).Some? then StartOfBlock(block)
    else Head(update)
  }

  /**
   * Where a `continue`, and the end of the body, go: the update, else the
   * decision, else the body; `None` where the source unwraps nothing.
   */
  function ContinueTarget(update: seq<nat>, decisions: seq<nat>, block: ProcessedBlock): Option<nat>
  {
    if |update| > 0 then Some(update[0])
    else if |decisions| > 0 then Some(decisions[0])
    else StartOfBlock(block)
  }

  /** The node a loop is entered at; `None` where the source unwraps nothing. */
  function LoopRoot(init: seq<nat>, decisions: seq<nat>, firstCheck: bool, block: ProcessedBlock, update: seq<nat>): Option<nat>
  {
    if |init| > 0 then Some(init[0])
    else if |decisions| > 0 && firstCheck then Some(decisions[0])
    else if block.EmptyBlock? && |update| > 0 then Some(update[0])
    else StartOfBlock(block)
  }

  /** Where a labeled `continue` goes: the decision, else the body. */
  function LabeledContinueTarget(decisions: seq<nat>, block: ProcessedBlock): Option<nat>
  {
    if |decisions| > 0 then Some(decisions[0]) else StartOfBlock(block)
  }

  /**
   * The loop shapes the processor documents, one per combination of empty
   * parts: `i`, `u`, `d` are the first initialization, update and decision
   * nodes, `b` the body's start. In each, the listed targets are the ones
   * drawn in the source's table.
   */
  lemma LoopShapes(i: nat, u: nat, d: nat, b: nat, next: nat)
    // Init -> Decision T -> Body -> Update -> Decision
    ensures var body := StatementBlock(b);
      && LoopRoot([i], [d], true, body, [u]) == Some(i)
      && LoopInitTarget([u], next, body, [d]) == d
      && DecisionTrueTarget([u], body) == Some(b)
      && ContinueTarget([u], [d], body) == Some(u)
      && LoopUpdateTarget(body, [d], u) == d
    // Init -> Decision T -> Update -> Decision, when the body is empty
    ensures && LoopRoot([i], [d], true, EmptyBlock, [u]) == Some(i)
            && DecisionTrueTarget([u], EmptyBlock) == Some(u)
            && LoopUpdateTarget(EmptyBlock, [d], u) == d
    // Init -> Decision T -> Body -> Decision, when there is no update
    ensures var body := StatementBlock(b);
      && DecisionTrueTarget([], body) == Some(b) && ContinueTarget([], [d], body) == Some(d)
    // Decision T -> Decision, when only the condition is present: the true edge goes to a dummy
    ensures DecisionTrueTarget([], EmptyBlock) == None && LoopRoot([], [d], true, EmptyBlock, []) == Some(d)
    // Init -> Body -> Update -> Body, when there is no condition
    ensures var body := StatementBlock(b);
      && LoopInitTarget([u], next, body, []) == b && LoopUpdateTarget(body, [], u) == b
      && ContinueTarget([u], [], body) == Some(u)
    // Init -> Update -> Update, when there is neither condition nor body
    ensures LoopInitTarget([u], next, EmptyBlock, []) == u && LoopUpdateTarget(EmptyBlock, [], u) == u
    // Body -> Body, with only a body
    ensures var body := StatementBlock(b);
      && LoopRoot([], [], true, body, []) == Some(b) && ContinueTarget([], [], body) == Some(b)
    // Update -> Update, with only an update
    ensures LoopRoot([], [], true, EmptyBlock, [u]) == Some(u)
    // Body -> Decision T -> Body, a do-while loop
    ensures var body := StatementBlock(b);
      && LoopRoot([], [d], false, body, []) == Some(b) && ContinueTarget([], [d], body) == Some(d)
      && DecisionTrueTarget([], body) == Some(b)
  {
  }

  /**
   * The cases the target rules leave unhandled: a loop with no update, no
   * condition and an empty body has no continue target, and a do-while loop
   * with an empty body has no entry node; the source unwraps nothing there.
   */
  lemma LoopPanics(update: seq<nat>, decisions: seq<nat>, block: ProcessedBlock, init: seq<nat>, firstCheck: bool)
    ensures ContinueTarget(update, decisions, block).None? <==> |update| == 0 && |decisions| == 0 && block.EmptyBlock?
    ensures LoopRoot(init, decisions, firstCheck, block, update).None? <==>
              |init| == 0 && (|decisions| == 0 || !firstCheck) && |update| == 0 && block.EmptyBlock?
  {
  }

  // Short-circuit semantics of decision chains.

  /**
   * The node reached from `n` by following, at each decision node created at
   * or after index `lo`, the edge whose direction is the truth value `env`
   * gives that node's test, until a node below `lo` is reached.
   */
  function Walk(g: Graph, lo: nat, n: nat, env: string -> bool): nat
    decreases n
  {
    if n < lo || n !in g.nodes || !g.nodes[n].nodeType.DecisionNode? then n
    else
      match FindOut(g.edges, n, DecisionEdge(env(g.nodes[n].nodeType.decision)))
      case None => n
      case Some(m) => if m < n then Walk(g, lo, m, env) else m
  }

  /** `g1` only adds nodes at fresh indices and appends edges that leave those new nodes. */
  predicate AppendsFrom(g0: Graph, g1: Graph)
  {
    && Grows(g0, g1)
    && (forall k :: k in g1.nodes && k < g0.nextIndex ==> k in g0.nodes)
    && |g0.edges| <= |g1.edges| && g1.edges[..|g0.edges|] == g0.edges
    && (forall i :: |g0.edges| <= i < |g1.edges| ==> g1.edges[i].source >= g0.nextIndex)
  }

  lemma AppendsFromTrans(g0: Graph, g1: Graph, g2: Graph)
    requires AppendsFrom(g0, g1) && AppendsFrom(g1, g2)
    ensures AppendsFrom(g0, g2)
  {
    assert g2.edges[..|g0.edges|] == g2.edges[..|g1.edges|][..|g0.edges|];
    forall i | |g0.edges| <= i < |g2.edges|
      ensures g2.edges[i].source >= g0.nextIndex
    {
      if i < |g1.edges| {
        assert g2.edges[i] == g2.edges[..|g1.edges|][i];
      }
    }
  }

  /** A walk that leaves the nodes from `lo1` on can be continued from where it left them. */
  lemma {:induction false} WalkWiden(g: Graph, lo: nat, lo1: nat, n: nat, env: string -> bool)
    requires lo <= lo1 && Walk(g, lo1, n, env) < lo1
    ensures Walk(g, lo, n, env) == Walk(g, lo, Walk(g, lo1, n, env), env)
    decreases n
  {
    if n >= lo1 && n in g.nodes && g.nodes[n].nodeType.DecisionNode? {
      var m := FindOut(g.edges, n, DecisionEdge(env(g.nodes[n].nodeType.decision)));
      if m.Some? && m.value < n {
        WalkWiden(g, lo, lo1, m.value, env);
      }
    }
  }

  /** Walks among the nodes below `g0.nextIndex` are not affected by what `g1` appends. */
  lemma {:induction false} WalkFrame(g0: Graph, g1: Graph, lo: nat, n: nat, env: string -> bool)
    requires AppendsFrom(g0, g1) && n < g0.nextIndex
    ensures Walk(g1, lo, n, env) == Walk(g0, lo, n, env)
    decreases n
  {
    if n >= lo && n in g0.nodes && g0.nodes[n].nodeType.DecisionNode? {
      var w := DecisionEdge(env(g0.nodes[n].nodeType.decision));
      var extra := g1.edges[|g0.edges|..];
      assert g1.edges == g0.edges + extra;
      FindOutAppend(g0.edges, extra, n, w);
      var m := FindOut(g0.edges, n, w);
      if m.Some? && m.value < n {
        WalkFrame(g0, g1, lo, m.value, env);
      }
    }
  }

  /** Whether lowering `c` avoids the source's unwrap of an empty right operand. */
  predicate Lowerable(c: Condition)
  {
    match c
    case And(l, r) => Lowerable(l) && Lowerable(r) && Atoms(r) > 0
    case Or(l, r) => Lowerable(l) && Lowerable(r) && Atoms(r) > 0
    case Unit(_) => true
    case Empty => true
  }

  lemma {:induction false} NoEmptyLowerable(c: Condition)
    requires NoEmpty(c)
    ensures Lowerable(c) && Atoms(c) > 0
  {
    match c
    case And(l, r) => NoEmptyLowerable(l); NoEmptyLowerable(r);
    case Or(l, r) => NoEmptyLowerable(l); NoEmptyLowerable(r);
    case Unit(_) =>
  }

  /** The graph with a decision node for the test `e`, its true edge to `t` and its false edge to `f`. */
  function UnitDecision(g: Graph, e: string, t: nat, f: nat): (r: Graph)
    requires t in g.nodes && f in g.nodes
  {
    var d := g.nextIndex;
    Graph(g.nodes[d := Node(None, DecisionNode(e))],
          g.edges + [GraphEdge(d, t, DecisionEdge(true)), GraphEdge(d, f, DecisionEdge(false))],
          d + 1)
  }

  /**
   * An atomic test becomes exactly one decision node with one true and one
   * false edge, so the walk from it ends at `t` when the test holds and at
   * `f` otherwise.
   */
  lemma UnitDecisionSpec(g: Graph, e: string, t: nat, f: nat)
    requires Valid(g) && t in g.nodes && f in g.nodes
    ensures var r := UnitDecision(g, e, t, f);
      && Valid(r) && AppendsFrom(g, r)
      && r.nodes[g.nextIndex].nodeType.DecisionNode?
      && forall env: string -> bool :: Walk(r, g.nextIndex, g.nextIndex, env) == if env(e) then t else f
  {
    var r := UnitDecision(g, e, t, f);
    var d := g.nextIndex;
    var es := r.edges;
    assert es[|es| - 1] == GraphEdge(d, f, DecisionEdge(false));
    assert es[..|es| - 1][|es| - 2] == GraphEdge(d, t, DecisionEdge(true));
    assert es[..|g.edges|] == g.edges;
  }

  /** The first exception type in `types` that has a handler, with that handler. */
  function FirstHandled(types: seq<string>, handlers: map<string, nat>): (r: Option<(nat, string)>)
    ensures r.Some? ==> r.value.1 in types && r.value.1 in handlers && r.value.0 == handlers[r.value.1]
    ensures r.None? ==> forall t :: t in types ==> t !in handlers
  {
    if types == [] then None
    else if types[0] in handlers then Some((handlers[types[0]], types[0]))
    else FirstHandled(types[1..], handlers)
  }

  /** The fall-through edges of a chain of statement nodes. */
  function ChainEdges(ids: seq<nat>, k: nat): seq<GraphEdge>
    requires k <= |ids|
  {
    if k < 2 then [] else ChainEdges(ids, k - 1) + [GraphEdge(ids[k - 2], ids[k - 1], StatementEdge)]
  }

  /** A node a loop part may continue to: present, not a dummy sink, created by this loop. */
  predicate LoopPart(nodes: map<nat, Node>, n: nat, base: nat, continueNode: nat, dummyTarget: nat)
  {
    n in nodes && !nodes[n].nodeType.SinkNode? && base <= n && n != continueNode && n != dummyTarget
  }

  /** The first node of each part of a loop is one a loop part may continue to. */
  predicate LoopHeads(nodes: map<nat, Node>, initNodes: seq<nat>, updateNodes: seq<nat>, decisions: seq<nat>,
                      block: ProcessedBlock, base: nat, continueNode: nat, dummyTarget: nat)
  {
    && (|initNodes| > 0 ==> LoopPart(nodes, initNodes[0], base, continueNode, dummyTarget))
    && (|updateNodes| > 0 ==> LoopPart(nodes, updateNodes[0], base, continueNode, dummyTarget))
    && (|decisions| > 0 ==> LoopPart(nodes, decisions[0], base, continueNode, dummyTarget))
    && (StartOfBlock(block).Some? ==> LoopPart(nodes, StartOfBlock(block).value, base, continueNode, dummyTarget))
  }

  // Moving edges off removed nodes.

  /**
   * `e` is an edge once the node `d` is replaced by `to`: an edge of `e0`
   * that does not touch `d`, or a copy into `to` of an edge of `e0` into `d`,
   * with the same source and weight.
   */
  predicate Retargeted(e0: seq<GraphEdge>, d: nat, to: nat, e: GraphEdge)
  {
    && e.source != d && e.target != d
    && (e in e0 || (e.target == to && GraphEdge(e.source, d, e.weight) in e0))
  }

  /** `e` is an edge once both loop dummies are replaced by `to`. */
  predicate LoopRetargeted(e0: seq<GraphEdge>, continueNode: nat, dummyTarget: nat, to: nat, e: GraphEdge)
  {
    && e.source != continueNode && e.target != continueNode && e.source != dummyTarget && e.target != dummyTarget
    && (|| e in e0
        || (&& e.target == to
            && (GraphEdge(e.source, continueNode, e.weight) in e0 || GraphEdge(e.source, dummyTarget, e.weight) in e0)))
  }

  /** Replacing `continueNode` and then `dummyTarget` by `to` replaces both at once. */
  lemma RetargetedTwice(e0: seq<GraphEdge>, e1: seq<GraphEdge>, e2: seq<GraphEdge>, continueNode: nat, dummyTarget: nat, to: nat)
    requires to != continueNode && to != dummyTarget
    requires forall e :: e in e1 <==> Retargeted(e0, continueNode, to, e)
    requires forall e :: e in e2 <==> Retargeted(e1, dummyTarget, to, e)
    ensures forall e :: e in e2 <==> LoopRetargeted(e0, continueNode, dummyTarget, to, e)
  {
    forall e ensures e in e2 <==> LoopRetargeted(e0, continueNode, dummyTarget, to, e) {
      var intoDummy := GraphEdge(e.source, dummyTarget, e.weight);
      assert intoDummy in e1 <==> Retargeted(e0, continueNode, to, intoDummy);
    }
  }

  /** The edges from the last initialization and the last update statement to their targets. */
  function LoopChainLinks(initNodes: seq<nat>, updateNodes: seq<nat>, decisions: seq<nat>, block: ProcessedBlock, next: nat)
    : seq<GraphEdge>
  {
    (if |initNodes| > 0
     then [GraphEdge(initNodes[|initNodes| - 1], LoopInitTarget(updateNodes, next, block, decisions), StatementEdge)]
     else [])
    + (if |updateNodes| > 0
       then [GraphEdge(updateNodes[|updateNodes| - 1], LoopUpdateTarget(block, decisions, updateNodes[0]), StatementEdge)]
       else [])
  }

  /** The parts of a loop as they stand before they are joined, with the graph at that point. */
  datatype LoopParts = LoopParts(initNodes: seq<nat>, updateNodes: seq<nat>, block: ProcessedBlock, decisions: seq<nat>,
                                 continueNode: nat, dummyTarget: nat, unjoined: Graph)

  /**
   * `e` is an edge of a joined loop whose node is labelled by `labelNode`
   * and followed by `next`: the chains are linked to their targets, what went
   * to either dummy goes to the continue target, and the label has an edge
   * to where a labelled `continue` goes.
   */
  predicate LoopJoinedEdge(p: LoopParts, labelNode: Option<nat>, next: nat, e: GraphEdge)
  {
    var continueTarget := ContinueTarget(p.updateNodes, p.decisions, p.block);
    var labeled := LabeledContinueTarget(p.decisions, p.block);
    || (&& continueTarget.Some?
        && LoopRetargeted(p.unjoined.edges + LoopChainLinks(p.initNodes, p.updateNodes, p.decisions, p.block, next),
                          p.continueNode, p.dummyTarget, continueTarget.value, e))
    || (labelNode.Some? && labeled.Some? && e == GraphEdge(labelNode.value, labeled.value, LabelContinue))
  }

  /** The three steps that join a loop's parts give the edges `LoopJoinedEdge` describes. */
  lemma LoopJoinedEdges(p: LoopParts, labelNode: Option<nat>, next: nat,
                        linked: seq<GraphEdge>, moved: seq<GraphEdge>, joined: seq<GraphEdge>, entered: bool)
    requires linked == p.unjoined.edges + LoopChainLinks(p.initNodes, p.updateNodes, p.decisions, p.block, next)
    requires ContinueTarget(p.updateNodes, p.decisions, p.block).Some?
    requires forall e :: e in moved <==>
      LoopRetargeted(linked, p.continueNode, p.dummyTarget, ContinueTarget(p.updateNodes, p.decisions, p.block).value, e)
    requires var labeled := LabeledContinueTarget(p.decisions, p.block);
      forall e :: e in joined <==>
        e in moved || (entered && labelNode.Some? && labeled.Some? && e == GraphEdge(labelNode.value, labeled.value, LabelContinue))
    ensures entered ==> forall e :: e in joined <==> LoopJoinedEdge(p, labelNode, next, e)
  {
  }

  /**
   * The graph once the label node `n` is deleted: its incoming edges are
   * copied to the target of its newest `LabelNext` edge, then it is removed
   * with its edges. `None` where it has no such edge, as the source unwraps
   * nothing there.
   */
  function DeleteLabelStep(g: Graph, n: nat): (r: Option<Graph>)
    ensures r.Some? <==> FindOut(g.edges, n, LabelNext).Some?
    ensures r.Some? ==> r.value.nodes == g.nodes - {n} && r.value.nextIndex == g.nextIndex
    ensures r.Some? ==> forall e :: e in r.value.edges <==> Retargeted(g.edges, n, FindOut(g.edges, n, LabelNext).value, e)
    ensures r.Some? && Valid(g) ==> Valid(r.value)
  {
    match FindOut(g.edges, n, LabelNext)
    case None => None
    case Some(t) =>
      RedirectedIncoming(g.edges, n, t);
      var moved := g.(edges := g.edges + Redirected(Incoming(g.edges, n), t));
      assert Valid(g) ==> Valid(moved) by {
        if Valid(g) {
          FindOutPresent(g, n, LabelNext);
          IncomingPresent(g, n);
        }
      }
      Some(RemoveNode(moved, n))
  }

  /** The graph once the label nodes `ns` are deleted in turn; `None` if one of them has no `LabelNext` edge then. */
  function DeleteLabels(g: Graph, ns: seq<nat>): (r: Option<Graph>)
    ensures r.Some? ==> forall n :: n in r.value.nodes <==> n in g.nodes && n !in ns
    ensures r.Some? ==> forall n :: n in r.value.nodes ==> r.value.nodes[n] == g.nodes[n]
    ensures r.Some? ==> r.value.nextIndex == g.nextIndex
    ensures r.Some? && Valid(g) ==> Valid(r.value)
    decreases |ns|
  {
    if ns == [] then Some(g)
    else match DeleteLabelStep(g, ns[0])
      case None => None
      case Some(g1) =>
        DeleteLabels(g1, ns[1..])
  }

  /** Deleting label nodes keeps every edge that touches none of them. */
  lemma {:induction false} DeleteLabelsKeeps(g: Graph, ns: seq<nat>, e: GraphEdge)
    requires DeleteLabels(g, ns).Some? && e in g.edges
    requires forall k :: 0 <= k < |ns| ==> e.source != ns[k] && e.target != ns[k]
    ensures e in DeleteLabels(g, ns).value.edges
    decreases |ns|
  {
    if ns != [] {
      var g1 := DeleteLabelStep(g, ns[0]).value;
      assert e in g1.edges;
      DeleteLabelsKeeps(g1, ns[1..], e);
    }
  }

  /** What `DeleteLabelsKeeps` and `DeleteLabelsOrigin` state, for every edge at once. */
  lemma DeleteLabelsEdges(g: Graph, ns: seq<nat>)
    requires DeleteLabels(g, ns).Some?
    ensures forall e :: e in g.edges && (forall k :: 0 <= k < |ns| ==> e.source != ns[k] && e.target != ns[k])
                        ==> e in DeleteLabels(g, ns).value.edges
    ensures forall e :: e in DeleteLabels(g, ns).value.edges ==>
                        e in g.edges || exists k :: 0 <= k < |ns| && GraphEdge(e.source, ns[k], e.weight) in g.edges
  {
    forall e | e in g.edges && (forall k :: 0 <= k < |ns| ==> e.source != ns[k] && e.target != ns[k])
      ensures e in DeleteLabels(g, ns).value.edges
    {
      DeleteLabelsKeeps(g, ns, e);
    }
    forall e | e in DeleteLabels(g, ns).value.edges
      ensures e in g.edges || exists k :: 0 <= k < |ns| && GraphEdge(e.source, ns[k], e.weight) in g.edges
    {
      DeleteLabelsOrigin(g, ns, e);
    }
  }

  /** Deleting label nodes brings back no edge touching a node `x` that no edge touches. */
  lemma {:induction false} DeleteLabelsAvoid(g: Graph, ns: seq<nat>, x: nat, e: GraphEdge)
    requires DeleteLabels(g, ns).Some? && e in DeleteLabels(g, ns).value.edges
    requires forall f :: f in g.edges ==> f.source != x && f.target != x
    ensures e.source != x && e.target != x
    decreases |ns|
  {
    if ns != [] {
      var g1 := DeleteLabelStep(g, ns[0]).value;
      var t := FindOut(g.edges, ns[0], LabelNext).value;
      assert GraphEdge(ns[0], t, LabelNext) in g.edges;
      forall f | f in g1.edges
        ensures f.source != x && f.target != x
      {
        if f !in g.edges {
          assert GraphEdge(f.source, ns[0], f.weight) in g.edges;
        }
      }
      DeleteLabelsAvoid(g1, ns[1..], x, e);
    }
  }

  /**
   * Every edge left after deleting label nodes joins two nodes that were not
   * deleted, and is an edge of the original graph or leaves its source with
   * the weight of an original edge from that source into a deleted label.
   */
  lemma {:induction false} DeleteLabelsOrigin(g: Graph, ns: seq<nat>, e: GraphEdge)
    requires DeleteLabels(g, ns).Some? && e in DeleteLabels(g, ns).value.edges
    ensures forall k :: 0 <= k < |ns| ==> e.source != ns[k] && e.target != ns[k]
    ensures e in g.edges || exists k :: 0 <= k < |ns| && GraphEdge(e.source, ns[k], e.weight) in g.edges
    decreases |ns|
  {
    if ns != [] {
      var g1 := DeleteLabelStep(g, ns[0]).value;
      var t := FindOut(g.edges, ns[0], LabelNext).value;
      var rest := ns[1..];
      assert DeleteLabels(g, ns) == DeleteLabels(g1, rest);
      DeleteLabelsOrigin(g1, rest, e);
      assert forall f :: f in g1.edges ==> Retargeted(g.edges, ns[0], t, f);
      DeleteLabelsAvoid(g1, rest, ns[0], e);
      forall k | 0 <= k < |ns|
        ensures e.source != ns[k] && e.target != ns[k]
      {
        if k > 0 {
          assert ns[k] == rest[k - 1];
        }
      }
      var f := e;
      if e !in g1.edges {
        var k :| 0 <= k < |rest| && GraphEdge(e.source, rest[k], e.weight) in g1.edges;
        f := GraphEdge(e.source, rest[k], e.weight);
        assert rest[k] == ns[k + 1];
      }
      assert Retargeted(g.edges, ns[0], t, f);
      if f !in g.edges {
        assert 0 < |ns| && GraphEdge(e.source, ns[0], e.weight) in g.edges;
      }
    }
  }


  // The label pass.

  /** The label pass meets a labeled control node whose label is in scope. */
  predicate LabelInScope(g: Graph, n: nat, labels: map<string, nat>)
  {
    && n in g.nodes && g.nodes[n].nodeType.ControlNode? && g.nodes[n].nodeLabel.Some?
    && g.nodes[n].nodeLabel.value in labels
  }

  /** The error the label pass reports at `n`, if any: a labeled `return` or `yield` whose label is in scope. */
  function LabelError(g: Graph, n: nat, labels: map<string, nat>): Option<LabelProcessingError>
  {
    if !LabelInScope(g, n, labels) then None
    else match g.nodes[n].nodeType.control
      case ReturnControl => Some(ReturnToLabel)
      case YieldControl => Some(LabelNotImplemented("Yield statement is not yet implemented"))
      case _ => None
  }

  /**
   * Where a labeled `break` or `continue` at `n` goes: the target of the
   * label node's break or continue edge; `None` when there is none.
   */
  function LabelJump(g: Graph, n: nat, labels: map<string, nat>): Option<nat>
  {
    if !LabelInScope(g, n, labels) then None
    else
      var labelNode := labels[g.nodes[n].nodeLabel.value];
      match g.nodes[n].nodeType.control
      case BreakControl => FindOut(g.edges, labelNode, LabelBreak)
      case ContinueControl => FindOut(g.edges, labelNode, LabelContinue)
      case _ => None
  }

  /** `e1` extends `e0` by statement edges that leave control nodes of `nodes`. */
  predicate ControlEdgesAdded(nodes: map<nat, Node>, e0: seq<GraphEdge>, e1: seq<GraphEdge>)
  {
    && |e0| <= |e1| && e1[..|e0|] == e0
    && forall i :: |e0| <= i < |e1| ==>
         e1[i].weight == StatementEdge && e1[i].source in nodes && nodes[e1[i].source].nodeType.ControlNode?
  }

  lemma ControlEdgesAddedTrans(nodes: map<nat, Node>, e0: seq<GraphEdge>, e1: seq<GraphEdge>, e2: seq<GraphEdge>)
    requires ControlEdgesAdded(nodes, e0, e1) && ControlEdgesAdded(nodes, e1, e2)
    ensures ControlEdgesAdded(nodes, e0, e2)
  {
    assert e2[..|e0|] == e2[..|e1|][..|e0|];
    forall i | |e0| <= i < |e2|
      ensures e2[i].weight == StatementEdge && e2[i].source in nodes && nodes[e2[i].source].nodeType.ControlNode?
    {
      if i < |e1| {
        assert e2[i] == e2[..|e1|][i];
      }
    }
  }

  /** An edge of `e0` is still an edge of an extension of it. */
  lemma EdgeKept(e0: seq<GraphEdge>, e1: seq<GraphEdge>, e: GraphEdge)
    requires |e0| <= |e1| && e1[..|e0|] == e0 && e in e0
    ensures e in e1
  {
    var i :| 0 <= i < |e0| && e0[i] == e;
    assert e1[i] == e1[..|e0|][i];
  }

  /** No element occurs twice. */
  predicate Distinct(s: seq<nat>)
  {
    forall i, j :: 0 <= i < j < |s| ==> s[i] != s[j]
  }

  /** Visiting one more present node leaves fewer unvisited ones. */
  lemma FewerUnvisited(nodes: set<nat>, visited: set<nat>, current: nat)
    requires current in nodes && current !in visited
    ensures |nodes - (visited + {current})| < |nodes - visited|
  {
    var before := nodes - visited;
    var after := nodes - (visited + {current});
    assert before == after + {current};
  }

  /** Visiting more nodes leaves no more unvisited ones. */
  lemma NoMoreUnvisited(nodes: set<nat>, visited: set<nat>, more: set<nat>)
    requires visited <= more
    ensures |nodes - more| <= |nodes - visited|
  {
    var small := nodes - more;
    var big := nodes - visited;
    assert big == small + (big - small);
    assert small * (big - small) == {};
  }

  /** Joining two duplicate-free sequences, the first inside `vis` and the second outside it, gives one. */
  lemma DistinctAppend(a: seq<nat>, b: seq<nat>, vis: set<nat>)
    requires Distinct(a) && Distinct(b)
    requires forall n :: n in a ==> n in vis
    requires forall n :: n in b ==> n !in vis
    ensures Distinct(a + b)
  {
    var c := a + b;
    forall i, j | 0 <= i < j < |c|
      ensures c[i] != c[j]
    {
      if j >= |a| && i < |a| {
        assert c[i] in a && c[j] in b;
      }
    }
  }

  class AstProcessor {
    var methodGraph: Graph

    constructor()
      ensures methodGraph == EmptyGraph
    {
      methodGraph := EmptyGraph;
    }

    /** Adds statement nodes for `statements` and links each to the next. */
    method AddAndLinkStatementNodes(statements: seq<string>) returns (ids: seq<nat>)
      requires Valid(methodGraph)
      modifies this
      ensures Valid(methodGraph) && Grows(old(methodGraph), methodGraph)
      ensures |ids| == |statements|
      ensures forall i :: 0 <= i < |ids| ==>
        && ids[i] == old(methodGraph.nextIndex) + i
        && ids[i] in methodGraph.nodes && methodGraph.nodes[ids[i]] == Node(None, StatementNode(statements[i]))
      ensures methodGraph.nextIndex == old(methodGraph.nextIndex) + |statements|
      ensures methodGraph.nodes.Keys == old(methodGraph.nodes).Keys + set i | 0 <= i < |ids| :: ids[i]
      ensures methodGraph.edges == old(methodGraph.edges) + ChainEdges(ids, |ids|)
    {
      var g := methodGraph;
      ids := [];
      for i := 0 to |statements|
        invariant Valid(g) && Grows(methodGraph, g)
        invariant |ids| == i
        invariant forall j :: 0 <= j < i ==>
          && ids[j] == methodGraph.nextIndex + j
          && ids[j] in g.nodes && g.nodes[ids[j]] == Node(None, StatementNode(statements[j]))
        invariant g.nextIndex == methodGraph.nextIndex + i
        invariant g.nodes.Keys == methodGraph.nodes.Keys + set j | 0 <= j < i :: ids[j]
        invariant g.edges == methodGraph.edges
      {
        ids := ids + [g.nextIndex];
        g := AddNode(g, Node(None, StatementNode(statements[i])));
      }
      ghost var afterNodes := g;
      for k := 0 to |ids|
        invariant Valid(g)
        invariant g.nodes == afterNodes.nodes && g.nextIndex == afterNodes.nextIndex
        invariant g.edges == methodGraph.edges + ChainEdges(ids, k)
      {
        if k >= 1 {
          g := AddEdge(g, ids[k - 1], ids[k], StatementEdge);
        }
      }
      methodGraph := g;
    }

    /** Gives `to` a copy of every edge into `from`, same source and weight, newest first. */
    method RedirectIncoming(from: nat, to: nat)
      requires Valid(methodGraph) && to in methodGraph.nodes
      modifies this
      ensures Valid(methodGraph)
      ensures methodGraph.nodes == old(methodGraph.nodes) && methodGraph.nextIndex == old(methodGraph.nextIndex)
      ensures methodGraph.edges == old(methodGraph.edges) + Redirected(Incoming(old(methodGraph.edges), from), to)
    {
      var g := methodGraph;
      var incoming := Incoming(g.edges, from);
      IncomingPresent(g, from);
      for i := 0 to |incoming|
        invariant Valid(g)
        invariant g.nodes == methodGraph.nodes && g.nextIndex == methodGraph.nextIndex
        invariant g.edges == methodGraph.edges + Redirected(incoming[..i], to)
      {
        assert incoming[i] in incoming;
        assert incoming[..i + 1][..i] == incoming[..i];
        g := AddEdge(g, incoming[i].0, to, incoming[i].1);
      }
      assert incoming[..|incoming|] == incoming;
      methodGraph := g;
    }

    /** Moves every edge into the dummy `sink` to `to`, then removes the dummy with its edges. */
    method Retarget(sink: nat, to: nat)
      requires Valid(methodGraph) && to in methodGraph.nodes && to != sink
      modifies this
      ensures Valid(methodGraph)
      ensures methodGraph.nodes == old(methodGraph.nodes) - {sink} && methodGraph.nextIndex == old(methodGraph.nextIndex)
      ensures forall e :: e in methodGraph.edges <==> Retargeted(old(methodGraph.edges), sink, to, e)
    {
      RedirectedIncoming(methodGraph.edges, sink, to);
      RedirectIncoming(sink, to);
      methodGraph := RemoveNode(methodGraph, sink);
    }

    /**
     * Lowers a condition to a chain of decision nodes whose paths end at
     * `t` when the condition holds and at `f` when it does not, with the
     * short-circuit order of `&&` and `||`.
     */
    method ProcessCondition(c: Condition, t: nat, f: nat) returns (r: Result<seq<nat>, MethodProcessingError>)
      requires Valid(methodGraph) && t in methodGraph.nodes && f in methodGraph.nodes
      modifies this
      decreases c, 1
      ensures Valid(methodGraph) && AppendsFrom(old(methodGraph), methodGraph)
      ensures r.Ok? <==> Lowerable(c)
      ensures r.Ok? ==> |r.value| == Atoms(c)
      ensures r.Ok? ==> forall i :: 0 <= i < |r.value| ==>
        && r.value[i] >= old(methodGraph.nextIndex) && r.value[i] in methodGraph.nodes
        && methodGraph.nodes[r.value[i]].nodeType.DecisionNode?
      ensures r.Ok? && NoEmpty(c) ==> forall env: string -> bool ::
        Walk(methodGraph, old(methodGraph.nextIndex), r.value[0], env) == if Eval(c, env) then t else f
      ensures c.Empty? ==> r == Ok([]) && methodGraph == old(methodGraph)
      ensures c.Unit? ==> r == Ok([old(methodGraph.nextIndex)]) && methodGraph == UnitDecision(old(methodGraph), c.expr, t, f)
    {
      match c {
        case Empty =>
          r := Ok([]);
        case Unit(e) =>
          UnitDecisionSpec(methodGraph, e, t, f);
          r := Ok([methodGraph.nextIndex]);
          methodGraph := UnitDecision(methodGraph, e, t, f);
        case And(_, _) =>
          r := ProcessBinaryCondition(c, t, f);
        case Or(_, _) =>
          r := ProcessBinaryCondition(c, t, f);
      }
    }

    /**
     * Lowers `left && right` or `left || right`: the right operand first,
     * towards `t` and `f`; then the left one, whose true (for `&&`) or false
     * (for `||`) target is the right operand's first node.
     */
    method ProcessBinaryCondition(c: Condition, t: nat, f: nat) returns (r: Result<seq<nat>, MethodProcessingError>)
      requires c.And? || c.Or?
      requires Valid(methodGraph) && t in methodGraph.nodes && f in methodGraph.nodes
      modifies this
      decreases c, 0
      ensures Valid(methodGraph) && AppendsFrom(old(methodGraph), methodGraph)
      ensures r.Ok? <==> Lowerable(c)
      ensures r.Ok? ==> |r.value| == Atoms(c)
      ensures r.Ok? ==> forall i :: 0 <= i < |r.value| ==>
        && r.value[i] >= old(methodGraph.nextIndex) && r.value[i] in methodGraph.nodes
        && methodGraph.nodes[r.value[i]].nodeType.DecisionNode?
      ensures r.Ok? && NoEmpty(c) ==> forall env: string -> bool ::
        Walk(methodGraph, old(methodGraph.nextIndex), r.value[0], env) == if Eval(c, env) then t else f
    {
      ghost var g0 := methodGraph;
      var rightNodes := ProcessCondition(c.right, t, f);
      if rightNodes.Err? {
        return Err(rightNodes.error);
      }
      if |rightNodes.value| == 0 {
        return Err(Panicked("right operand of a binary condition produced no decision node"));
      }
      ghost var g1 := methodGraph;
      var first := rightNodes.value[0];
      var leftNodes := ProcessCondition(c.left, if c.And? then first else t, if c.And? then f else first);
      AppendsFromTrans(g0, g1, methodGraph);
      if leftNodes.Err? {
        return Err(leftNodes.error);
      }
      r := Ok(leftNodes.value + rightNodes.value);
      if NoEmpty(c) {
        NoEmptyLowerable(c.left);
        forall env: string -> bool
          ensures Walk(methodGraph, g0.nextIndex, r.value[0], env) == if Eval(c, env) then t else f
        {
          WalkWiden(methodGraph, g0.nextIndex, g1.nextIndex, leftNodes.value[0], env);
          WalkFrame(g1, methodGraph, g0.nextIndex, first, env);
        }
      }
    }

    /**
     * Lowers a statement list. `results` holds what each statement gave;
     * the block's edges are the fall-through links between the nodes of the
     * statements that gave one (see `BlockLinksSpec`).
     */
    method ProcessBlock(ctx: Ctx, stmts: seq<AstNode>)
      returns (r: Result<ProcessedBlock, MethodProcessingError>, ghost results: seq<ProcessedNode>, ghost mid: Graph)
      requires Valid(methodGraph) && CtxIn(ctx, methodGraph) && ctx.mostRecent.Some?
      modifies this
      decreases stmts, 1
      ensures Valid(methodGraph) && Grows(old(methodGraph), methodGraph)
      ensures r.Ok? ==> |results| == |stmts| && r.value == Classify(Children(stmts, results))
      ensures r.Ok? ==> forall k :: 0 <= k < |Children(stmts, results)| ==>
        NewNode(old(methodGraph), methodGraph, Children(stmts, results)[k].0)
      ensures r.Ok? && StartOfBlock(r.value).Some? ==> NewNode(old(methodGraph), methodGraph, StartOfBlock(r.value).value)
      ensures r.Ok? ==>
        && methodGraph.nodes == mid.nodes && methodGraph.nextIndex == mid.nextIndex
        && methodGraph.edges == mid.edges + BlockLinks(Children(stmts, results), ctx.mostRecent)
    {
      var nodes;
      nodes, results := ProcessStatements(ctx, stmts);
      mid := methodGraph;
      if nodes.Err? {
        return Err(nodes.error), results, mid;
      }
      LinkBlock(nodes.value, ctx.mostRecent);
      r := Ok(Classify(nodes.value));
    }

    /**
     * Lowers the statements of a block from the last to the first, each
     * followed by the node of the statement after it.
     */
    method ProcessStatements(ctx: Ctx, stmts: seq<AstNode>)
      returns (r: Result<seq<(nat, bool)>, MethodProcessingError>, ghost results: seq<ProcessedNode>)
      requires Valid(methodGraph) && CtxIn(ctx, methodGraph) && ctx.mostRecent.Some?
      modifies this
      decreases stmts, 0
      ensures Valid(methodGraph) && Grows(old(methodGraph), methodGraph)
      ensures r.Ok? ==> |results| == |stmts| && r.value == Children(stmts, results)
      ensures r.Ok? ==> forall k :: 0 <= k < |r.value| ==> NewNode(old(methodGraph), methodGraph, r.value[k].0)
    {
      var blockCtx := ctx;
      var nodes: seq<(nat, bool)> := [];
      results := [];
      var i := |stmts|;
      while i > 0
        invariant 0 <= i <= |stmts| && |results| == |stmts| - i
        invariant nodes == Children(stmts[i..], results)
        invariant Valid(methodGraph) && Grows(old(methodGraph), methodGraph)
        invariant forall k :: 0 <= k < |nodes| ==> NewNode(old(methodGraph), methodGraph, nodes[k].0)
        invariant blockCtx == if nodes == [] then ctx else ctx.(mostRecent := Some(nodes[0].0))
      {
        i := i - 1;
        ghost var before := methodGraph;
        CtxInGrows(ctx, old(methodGraph), methodGraph);
        var res := ProcessNode(blockCtx, stmts[i]);
        GrowsTrans(old(methodGraph), before, methodGraph);
        if res.Err? {
          return Err(res.error), results;
        }
        ChildrenCons(stmts, i, res.value, results);
        results := [res.value] + results;
        if res.value.Child? {
          nodes := [(res.value.node, Exits(stmts[i]))] + nodes;
          blockCtx := ctx.(mostRecent := Some(res.value.node));
        }
      }
      assert stmts[0..] == stmts;
      r := Ok(nodes);
    }

    /** Adds the fall-through edges of a lowered block whose statements gave `children`. */
    method LinkBlock(children: seq<(nat, bool)>, mostRecent: Option<nat>)
      requires Valid(methodGraph)
      requires forall k :: 0 <= k < |children| ==> children[k].0 in methodGraph.nodes
      requires mostRecent.Some? ==> mostRecent.value in methodGraph.nodes
      modifies this
      ensures Valid(methodGraph)
      ensures methodGraph.nodes == old(methodGraph.nodes) && methodGraph.nextIndex == old(methodGraph.nextIndex)
      ensures methodGraph.edges == old(methodGraph.edges) + BlockLinks(children, mostRecent)
    {
      var g := methodGraph;
      for k := 0 to |children|
        invariant Valid(g)
        invariant g.nodes == methodGraph.nodes && g.nextIndex == methodGraph.nextIndex
        invariant g.edges == methodGraph.edges + PairLinks(children, k)
      {
        if k >= 1 && !children[k - 1].1 {
          g := AddEdge(g, children[k - 1].0, children[k].0, StatementEdge);
        }
      }
      if |children| > 0 && !children[|children| - 1].1 && mostRecent.Some? {
        g := AddEdge(g, children[|children| - 1].0, mostRecent.value, StatementEdge);
      }
      methodGraph := g;
    }

    /** Lowers one node of the tree: its label, its breakable dummy and its contents. */
    method ProcessNode(ctx: Ctx, node: AstNode) returns (r: Result<ProcessedNode, MethodProcessingError>)
      requires Valid(methodGraph) && CtxIn(ctx, methodGraph) && ctx.mostRecent.Some?
      modifies this
      decreases node
      ensures Valid(methodGraph) && Grows(old(methodGraph), methodGraph)
      ensures r.Ok? && r.value.Child? ==> NewNode(old(methodGraph), methodGraph, r.value.node)
      ensures node.nodeLabel == Some("") ==> r == Err(LabelProcessing(EmptySomeLabel))
    {
      var ok, dummyBreak, labelNode := OpenNode(node.nodeLabel);
      if !ok {
        return Err(LabelProcessing(EmptySomeLabel));
      }
      var c := ctx.(labelNode := labelNode, breakable := if node.breakable then Some(dummyBreak) else ctx.breakable);
      var res := ProcessContents(c, node.contents);
      if res.Err? {
        return Err(res.error);
      }
      r := CloseNode(labelNode, res.value, dummyBreak, ctx.mostRecent.value);
    }

    /**
     * Starts a node: the dummy sink its breaks first go to and, for a
     * labelled node, its label node; an empty label is refused once the
     * dummy exists.
     */
    method OpenNode(l: Option<string>) returns (ok: bool, dummyBreak: nat, labelNode: Option<nat>)
      requires Valid(methodGraph)
      modifies this
      ensures Valid(methodGraph) && Grows(old(methodGraph), methodGraph) && methodGraph.edges == old(methodGraph.edges)
      ensures ok <==> l != Some("")
      ensures dummyBreak == old(methodGraph.nextIndex) && dummyBreak in methodGraph.nodes
      ensures methodGraph.nodes[dummyBreak] == Node(None, SinkNode(Some("Dummy If Break Node")))
      ensures ok ==> labelNode == if l.Some? then Some(dummyBreak + 1) else None
      ensures labelNode.Some? ==> labelNode.value in methodGraph.nodes && methodGraph.nodes[labelNode.value] == Node(l, LabelNode)
      ensures methodGraph.nextIndex == dummyBreak + (if labelNode.Some? then 2 else 1)
      ensures methodGraph.nodes.Keys == old(methodGraph.nodes).Keys + {dummyBreak} + (if labelNode.Some? then {dummyBreak + 1} else {})
    {
      var g := methodGraph;
      dummyBreak := g.nextIndex;
      g := AddNode(g, Node(None, SinkNode(Some("Dummy If Break Node"))));
      labelNode := None;
      ok := l != Some("");
      if ok && l.Some? {
        labelNode := Some(g.nextIndex);
        g := AddNode(g, Node(l, LabelNode));
      }
      methodGraph := g;
    }

    /**
     * Finishes a node: what broke out of it goes to `next`, and a labelled
     * node is entered at its label, which leads to the contents and, for a
     * labelled break, to `next`.
     */
    method CloseNode(labelNode: Option<nat>, content: ProcessedNode, dummyBreak: nat, next: nat)
      returns (r: Result<ProcessedNode, MethodProcessingError>)
      requires Valid(methodGraph) && next in methodGraph.nodes && dummyBreak in methodGraph.nodes && next != dummyBreak
      requires labelNode.Some? ==> labelNode.value in methodGraph.nodes && labelNode.value != dummyBreak
      requires content.Child? ==> content.node in methodGraph.nodes && content.node != dummyBreak
      modifies this
      ensures Valid(methodGraph)
      ensures methodGraph.nodes == old(methodGraph.nodes) - {dummyBreak} && methodGraph.nextIndex == old(methodGraph.nextIndex)
      ensures r == Ok(if labelNode.Some? && content.Child? then Child(labelNode.value) else content)
      ensures forall e :: e in methodGraph.edges <==>
        || Retargeted(old(methodGraph.edges), dummyBreak, next, e)
        || (&& labelNode.Some? && content.Child?
            && (e == GraphEdge(labelNode.value, content.node, LabelNext) || e == GraphEdge(labelNode.value, next, LabelBreak)))
    {
      Retarget(dummyBreak, next);
      if labelNode.Some? && content.Child? {
        var g := methodGraph;
        g := AddEdge(g, labelNode.value, content.node, LabelNext);
        g := AddEdge(g, labelNode.value, next, LabelBreak);
        methodGraph := g;
        r := Ok(Child(labelNode.value));
      } else {
        r := Ok(content);
      }
    }

    /** Lowers the contents of a node in the context its node set up. */
    method ProcessContents(c: Ctx, contents: Contents) returns (r: Result<ProcessedNode, MethodProcessingError>)
      requires Valid(methodGraph) && CtxIn(c, methodGraph) && c.mostRecent.Some?
      modifies this
      decreases contents, 3
      ensures Valid(methodGraph) && Grows(old(methodGraph), methodGraph)
      ensures r.Ok? && r.value.Child? ==> NewNode(old(methodGraph), methodGraph, r.value.node)
      ensures contents.YieldStatement? ==> r == Err(NotImplemented("Yield statement is not yet implemented"))
    {
      match contents {
        case FunctionBlock(_, _, _, _) =>
          r := Err(Unmodelled("a function block inside a block"));
        case LoopBlock(_, _, _, _, _) =>
          var res, _ := ProcessLoop(c, contents);
          r := res;
        case DecisionBlock(_, _, _) =>
          var res, _, _, _ := ProcessDecisionBlock(c, contents);
          r := res;
        case TryBlock(_, _, _) =>
          r := Err(Unmodelled("a try block"));
        case ThrowStatement(statement, exception) =>
          r := ProcessThrow(c, statement, exception);
        case Statement(code) =>
          var n := ProcessStatement(code);
          r := Ok(n);
        case YieldStatement(_) =>
          r := Err(NotImplemented("Yield statement is not yet implemented"));
        case BreakStatement(l) =>
          var n := ProcessBreak(c, l);
          r := Ok(n);
        case ContinueStatement(l) =>
          var n := ProcessContinue(c, l);
          r := Ok(n);
        case ReturnStatement(e) =>
          var n := ProcessReturn(c, e);
          r := Ok(n);
        case Block(stmts) =>
          var res, _, _ := ProcessBlock(c, stmts);
          if res.Err? {
            r := Err(res.error);
          } else {
            var start := StartOfBlock(res.value);
            r := Ok(if start.Some? then Child(start.value) else Root);
          }
      }
    }

    method ProcessStatement(code: string) returns (r: ProcessedNode)
      requires Valid(methodGraph)
      modifies this
      ensures Valid(methodGraph) && Grows(old(methodGraph), methodGraph)
      ensures r == Child(old(methodGraph.nextIndex))
      ensures methodGraph == AddNode(old(methodGraph), Node(None, StatementNode(code)))
    {
      r := Child(methodGraph.nextIndex);
      methodGraph := AddNode(methodGraph, Node(None, StatementNode(code)));
    }

    /** An unlabeled `break` goes to the nearest breakable dummy; a labeled one waits for the label pass. */
    method ProcessBreak(ctx: Ctx, l: Option<string>) returns (r: ProcessedNode)
      requires Valid(methodGraph) && CtxIn(ctx, methodGraph)
      modifies this
      ensures Valid(methodGraph) && Grows(old(methodGraph), methodGraph)
      ensures var n := old(methodGraph.nextIndex);
        && r == Child(n)
        && methodGraph.nodes == old(methodGraph.nodes)[n := Node(l, ControlNode(BreakControl))]
        && methodGraph.nextIndex == n + 1
        && methodGraph.edges == old(methodGraph.edges)
             + (if l.None? && ctx.breakable.Some? then [GraphEdge(n, ctx.breakable.value, StatementEdge)] else [])
    {
      var g := methodGraph;
      var source := g.nextIndex;
      g := AddNode(g, Node(l, ControlNode(BreakControl)));
      if l.None? && ctx.breakable.Some? {
        g := AddEdge(g, source, ctx.breakable.value, StatementEdge);
      }
      methodGraph := g;
      r := Child(source);
    }

    /** An unlabeled `continue` goes to the nearest continuable dummy; a labeled one waits for the label pass. */
    method ProcessContinue(ctx: Ctx, l: Option<string>) returns (r: ProcessedNode)
      requires Valid(methodGraph) && CtxIn(ctx, methodGraph)
      modifies this
      ensures Valid(methodGraph) && Grows(old(methodGraph), methodGraph)
      ensures var n := old(methodGraph.nextIndex);
        && r == Child(n)
        && methodGraph.nodes == old(methodGraph.nodes)[n := Node(l, ControlNode(ContinueControl))]
        && methodGraph.nextIndex == n + 1
        && methodGraph.edges == old(methodGraph.edges)
             + (if l.None? && ctx.continuable.Some? then [GraphEdge(n, ctx.continuable.value, StatementEdge)] else [])
    {
      var g := methodGraph;
      var source := g.nextIndex;
      g := AddNode(g, Node(l, ControlNode(ContinueControl)));
      if l.None? && ctx.continuable.Some? {
        g := AddEdge(g, source, ctx.continuable.value, StatementEdge);
      }
      methodGraph := g;
      r := Child(source);
    }

    /** A `return` goes to the function's sink; its node is labelled with the returned expression. */
    method ProcessReturn(ctx: Ctx, expression: Option<string>) returns (r: ProcessedNode)
      requires Valid(methodGraph) && CtxIn(ctx, methodGraph)
      modifies this
      ensures Valid(methodGraph) && Grows(old(methodGraph), methodGraph)
      ensures var n := old(methodGraph.nextIndex);
        && r == Child(n)
        && methodGraph.nodes == old(methodGraph.nodes)[n := Node(expression, ControlNode(ReturnControl))]
        && methodGraph.nextIndex == n + 1
        && methodGraph.edges == old(methodGraph.edges)
             + (if ctx.sink.Some? then [GraphEdge(n, ctx.sink.value, StatementEdge)] else [])
    {
      var g := methodGraph;
      var source := g.nextIndex;
      g := AddNode(g, Node(expression, ControlNode(ReturnControl)));
      if ctx.sink.Some? {
        g := AddEdge(g, source, ctx.sink.value, StatementEdge);
      }
      methodGraph := g;
      r := Child(source);
    }

    /** A `throw` goes to the handler of its first handled exception type, else to the sink. */
    method ProcessThrow(ctx: Ctx, statement: string, exception: seq<string>)
      returns (r: Result<ProcessedNode, MethodProcessingError>)
      requires Valid(methodGraph) && CtxIn(ctx, methodGraph)
      modifies this
      ensures Valid(methodGraph) && Grows(old(methodGraph), methodGraph)
      ensures |exception| == 0 ==> r.Err? && r.error.NotSupported?
      ensures |exception| > 0 && ctx.sink.None? ==> r.Err? && r.error.Panicked?
      ensures r.Ok? ==>
        var n := old(methodGraph.nextIndex);
        var h := FirstHandled(exception, ctx.exceptionNodes);
        && r.value == Child(n)
        && methodGraph.nodes == old(methodGraph.nodes)[n := Node(None, ExceptionNode(statement))]
        && methodGraph.edges == old(methodGraph.edges)
             + [if h.Some? then GraphEdge(n, h.value.0, ExceptionEdge(h.value.1))
                else GraphEdge(n, ctx.sink.value, ExceptionEdge(exception[0]))]
    {
      if |exception| == 0 {
        return Err(NotSupported("Throw statements must have at least one exception associated with them"));
      }
      if ctx.sink.None? {
        return Err(Panicked("a throw outside a function has no sink"));
      }
      var handled := FirstHandled(exception, ctx.exceptionNodes);
      var target := if handled.Some? then handled.value.0 else ctx.sink.value;
      var conveying := if handled.Some? then handled.value.1 else exception[0];
      var g := methodGraph;
      var source := g.nextIndex;
      g := AddNode(g, Node(None, ExceptionNode(statement)));
      g := AddEdge(g, source, target, ExceptionEdge(conveying));
      methodGraph := g;
      return Ok(Child(source));
    }

    /**
     * Lowers an if/else or switch case: the condition's true paths end at
     * the block's start, its false paths at the else node, either of them
     * the next node when absent.
     */
    method ProcessDecisionBlock(ctx: Ctx, db: Contents)
      returns (r: Result<ProcessedNode, MethodProcessingError>, ghost thenStart: Option<nat>,
               ghost elseStart: Option<nat>, ghost condBase: nat)
      requires db.DecisionBlock?
      requires Valid(methodGraph) && CtxIn(ctx, methodGraph) && ctx.mostRecent.Some?
      modifies this
      decreases db, 1
      ensures Valid(methodGraph) && Grows(old(methodGraph), methodGraph)
      ensures r.Ok? && r.value.Child? ==> NewNode(old(methodGraph), methodGraph, r.value.node)
      ensures r.Ok? && NoEmpty(db.condition) ==>
        && r.value.Child?
        && forall env: string -> bool ::
             Walk(methodGraph, condBase, r.value.node, env)
             == if Eval(db.condition, env) then (if thenStart.Some? then thenStart.value else ctx.mostRecent.value)
                else (if elseStart.Some? then elseStart.value else ctx.mostRecent.value)
    {
      var next := ctx.mostRecent.value;
      var e := ProcessElse(ctx, db);
      if e.Err? {
        return Err(e.error), None, None, 0;
      }
      elseStart := e.value;
      var falseTarget := if e.value.Some? then e.value.value else next;
      var block, _, _ := ProcessBlock(ctx, db.block);
      if block.Err? {
        return Err(block.error), None, None, 0;
      }
      var start := StartOfBlock(block.value);
      thenStart := start;
      var trueTarget := if start.Some? then start.value else next;
      condBase := methodGraph.nextIndex;
      var decisions := ProcessCondition(db.condition, trueTarget, falseTarget);
      if decisions.Err? {
        r := Err(decisions.error);
      } else {
        if NoEmpty(db.condition) {
          NoEmptyLowerable(db.condition);
        }
        if |decisions.value| > 0 {
          r := Ok(Child(decisions.value[0]));
        } else if start.Some? {
          r := Ok(Child(start.value));
        } else {
          r := Ok(Root);
        }
      }
    }

    /** Lowers the else branch of a decision block, if it has one; gives the node it starts at. */
    method ProcessElse(ctx: Ctx, db: Contents) returns (r: Result<Option<nat>, MethodProcessingError>)
      requires db.DecisionBlock?
      requires Valid(methodGraph) && CtxIn(ctx, methodGraph) && ctx.mostRecent.Some?
      modifies this
      decreases db, 0
      ensures Valid(methodGraph) && Grows(old(methodGraph), methodGraph)
      ensures r.Ok? && r.value.Some? ==> NewNode(old(methodGraph), methodGraph, r.value.value)
      ensures db.elseNode.None? ==> r == Ok(None)
    {
      if db.elseNode.None? {
        return Ok(None);
      }
      var e := ProcessNode(ctx, db.elseNode.value);
      if e.Err? {
        return Err(e.error);
      }
      r := Ok(if e.value.Child? then Some(e.value.node) else None);
    }

    /**
     * Lowers a loop: the initialization and update chains, the body (whose
     * end and whose `continue`s first go to dummy sinks) and the condition,
     * then joins them by the target rules above.
     */
    method ProcessLoop(ctx: Ctx, lb: Contents) returns (r: Result<ProcessedNode, MethodProcessingError>, ghost p: LoopParts)
      requires lb.LoopBlock?
      requires Valid(methodGraph) && CtxIn(ctx, methodGraph) && ctx.mostRecent.Some?
      modifies this
      decreases lb, 2
      ensures Valid(methodGraph) && Grows(old(methodGraph), methodGraph)
      ensures r.Ok? ==> r.value.Child? && NewNode(old(methodGraph), methodGraph, r.value.node)
      ensures !lb.firstIterationConditionCheck && (|lb.update| > 0 || |lb.initialization| > 0) ==>
                r == Err(TriedToCreateDoForLoop)
      ensures r.Ok? ==>
        && |p.initNodes| == |lb.initialization| && |p.updateNodes| == |lb.update|
        && p.continueNode !in methodGraph.nodes && p.dummyTarget !in methodGraph.nodes
        && LoopRoot(p.initNodes, p.decisions, lb.firstIterationConditionCheck, p.block, p.updateNodes).Some?
        && r == Ok(Child(LoopRoot(p.initNodes, p.decisions, lb.firstIterationConditionCheck, p.block, p.updateNodes).value))
      ensures r.Ok? ==> forall e :: e in methodGraph.edges <==> LoopJoinedEdge(p, ctx.labelNode, ctx.mostRecent.value, e)
    {
      if !lb.firstIterationConditionCheck && (|lb.update| > 0 || |lb.initialization| > 0) {
        return Err(TriedToCreateDoForLoop), LoopParts([], [], EmptyBlock, [], 0, 0, methodGraph);
      }
      ghost var g0 := methodGraph;
      var initNodes, updateNodes := LoopChains(lb.initialization, lb.update);
      var continueNode, dummyTarget := AddLoopDummies();
      r, p := LoopRest(ctx, lb, initNodes, updateNodes, continueNode, dummyTarget, g0.nextIndex);
    }

    /** Adds the chained statement nodes of a loop's initialization and of its update. */
    method LoopChains(initialization: seq<string>, update: seq<string>) returns (initNodes: seq<nat>, updateNodes: seq<nat>)
      requires Valid(methodGraph)
      modifies this
      ensures Valid(methodGraph) && Grows(old(methodGraph), methodGraph)
      ensures |initNodes| == |initialization| && |updateNodes| == |update|
      ensures forall n :: n in initNodes || n in updateNodes ==>
        && n in methodGraph.nodes && methodGraph.nodes[n].nodeType.StatementNode?
        && old(methodGraph.nextIndex) <= n < methodGraph.nextIndex
    {
      initNodes := AddAndLinkStatementNodes(initialization);
      updateNodes := AddAndLinkStatementNodes(update);
    }

    /** Adds the two dummy sinks a loop's `continue`s and body end first go to. */
    method AddLoopDummies() returns (continueNode: nat, dummyTarget: nat)
      requires Valid(methodGraph)
      modifies this
      ensures Valid(methodGraph) && methodGraph.edges == old(methodGraph.edges)
      ensures continueNode == old(methodGraph.nextIndex) && dummyTarget == continueNode + 1
      ensures methodGraph.nextIndex == dummyTarget + 1
      ensures methodGraph.nodes == old(methodGraph.nodes)[continueNode := Node(None, SinkNode(None))]
                                                         [dummyTarget := Node(None, SinkNode(Some("Dummy Target Sink")))]
    {
      var g := methodGraph;
      continueNode := g.nextIndex;
      g := AddNode(g, Node(None, SinkNode(None)));
      dummyTarget := g.nextIndex;
      g := AddNode(g, Node(None, SinkNode(Some("Dummy Target Sink"))));
      methodGraph := g;
    }

    /** Lowers a loop from its body on, once its chains and dummy sinks exist. */
    method LoopRest(ctx: Ctx, lb: Contents, initNodes: seq<nat>, updateNodes: seq<nat>,
                    continueNode: nat, dummyTarget: nat, ghost base: nat)
      returns (r: Result<ProcessedNode, MethodProcessingError>, ghost p: LoopParts)
      requires lb.LoopBlock?
      requires Valid(methodGraph) && CtxIn(ctx, methodGraph) && ctx.mostRecent.Some?
      requires ctx.labelNode.Some? ==> ctx.labelNode.value < continueNode
      requires ctx.mostRecent.value < continueNode
      requires forall n :: n in initNodes || n in updateNodes ==>
        && n in methodGraph.nodes && methodGraph.nodes[n].nodeType.StatementNode? && base <= n < continueNode
      requires continueNode in methodGraph.nodes && dummyTarget in methodGraph.nodes
      requires base <= continueNode < dummyTarget < methodGraph.nextIndex
      modifies this
      decreases lb, 1
      ensures Valid(methodGraph) && old(methodGraph.nextIndex) <= methodGraph.nextIndex
      ensures forall n :: n in old(methodGraph.nodes) && n != continueNode && n != dummyTarget ==>
        n in methodGraph.nodes && methodGraph.nodes[n] == old(methodGraph.nodes)[n]
      ensures r.Ok? ==> r.value.Child? && NewNode(Graph(map[], [], base), methodGraph, r.value.node)
      ensures r.Ok? ==>
        && p.initNodes == initNodes && p.updateNodes == updateNodes
        && p.continueNode == continueNode && p.dummyTarget == dummyTarget
        && continueNode !in methodGraph.nodes && dummyTarget !in methodGraph.nodes
        && LoopRoot(initNodes, p.decisions, lb.firstIterationConditionCheck, p.block, updateNodes).Some?
        && r == Ok(Child(LoopRoot(initNodes, p.decisions, lb.firstIterationConditionCheck, p.block, updateNodes).value))
      ensures r.Ok? ==> forall e :: e in methodGraph.edges <==> LoopJoinedEdge(p, ctx.labelNode, ctx.mostRecent.value, e)
    {
      var next := ctx.mostRecent.value;
      var blockCtx := ctx.(mostRecent := Some(dummyTarget), continuable := Some(continueNode));
      var parts := LoopBodyAndCondition(blockCtx, lb, updateNodes, next);
      if parts.Err? {
        return Err(parts.error), LoopParts(initNodes, updateNodes, EmptyBlock, [], continueNode, dummyTarget, methodGraph);
      }
      var (block, decisions) := parts.value;
      p := LoopParts(initNodes, updateNodes, block, decisions, continueNode, dummyTarget, methodGraph);
      assert |updateNodes| > 0 ==> updateNodes[0] in updateNodes && updateNodes[|updateNodes| - 1] in updateNodes;
      assert |initNodes| > 0 ==> initNodes[0] in initNodes && initNodes[|initNodes| - 1] in initNodes;
      r := LoopFinish(ctx.labelNode, next, lb.firstIterationConditionCheck, initNodes, updateNodes, block, decisions,
                      continueNode, dummyTarget, base);
    }

    /** Lowers the body of a loop, then its condition. */
    method LoopBodyAndCondition(blockCtx: Ctx, lb: Contents, updateNodes: seq<nat>, next: nat)
      returns (r: Result<(ProcessedBlock, seq<nat>), MethodProcessingError>)
      requires lb.LoopBlock?
      requires Valid(methodGraph) && CtxIn(blockCtx, methodGraph) && blockCtx.mostRecent.Some? && next in methodGraph.nodes
      requires forall n :: n in updateNodes ==> n in methodGraph.nodes && methodGraph.nodes[n].nodeType.StatementNode?
      modifies this
      decreases lb, 0
      ensures Valid(methodGraph) && Grows(old(methodGraph), methodGraph)
      ensures r.Ok? ==> StartOfBlock(r.value.0).Some? ==> NewNode(old(methodGraph), methodGraph, StartOfBlock(r.value.0).value)
      ensures r.Ok? ==> forall i :: 0 <= i < |r.value.1| ==>
        && r.value.1[i] >= old(methodGraph.nextIndex) && r.value.1[i] in methodGraph.nodes
        && methodGraph.nodes[r.value.1[i]].nodeType.DecisionNode?
    {
      var blockRes, _, _ := ProcessBlock(blockCtx, lb.block);
      if blockRes.Err? {
        return Err(blockRes.error);
      }
      var block := blockRes.value;
      assert |updateNodes| > 0 ==> updateNodes[0] in updateNodes;
      var decRes := ProcessLoopCondition(lb.condition, updateNodes, block, next);
      if decRes.Err? {
        return Err(decRes.error);
      }
      r := Ok((block, decRes.value));
    }

    /**
     * Lowers a loop's condition with its true edges towards the body, else
     * the update, else a dummy sink, and its false edges towards `next`; a
     * dummy is then replaced by the first decision node.
     */
    method ProcessLoopCondition(condition: Condition, update: seq<nat>, block: ProcessedBlock, next: nat)
      returns (r: Result<seq<nat>, MethodProcessingError>)
      requires Valid(methodGraph) && next in methodGraph.nodes
      requires DecisionTrueTarget(update, block).Some? ==>
        var n := DecisionTrueTarget(update, block).value;
        n in methodGraph.nodes && !methodGraph.nodes[n].nodeType.SinkNode?
      modifies this
      ensures Valid(methodGraph) && Grows(old(methodGraph), methodGraph)
      ensures r.Ok? <==> Lowerable(condition)
      ensures r.Ok? ==> |r.value| == Atoms(condition) && forall i :: 0 <= i < |r.value| ==>
        && r.value[i] >= old(methodGraph.nextIndex) && r.value[i] in methodGraph.nodes
        && methodGraph.nodes[r.value[i]].nodeType.DecisionNode?
    {
      var trueTarget: nat;
      var tt := DecisionTrueTarget(update, block);
      if tt.Some? {
        trueTarget := tt.value;
      } else {
        trueTarget := methodGraph.nextIndex;
        methodGraph := AddNode(methodGraph, Node(None, SinkNode(Some("Decision True Target Dummy Node"))));
      }
      r := ProcessCondition(condition, trueTarget, next);
      if r.Ok? && methodGraph.nodes[trueTarget].nodeType.SinkNode? && |r.value| > 0 {
        assert trueTarget !in old(methodGraph.nodes);
        Retarget(trueTarget, r.value[0]);
      }
    }

    /** Joins the lowered parts of a loop and picks its entry node. */
    method LoopFinish(labelNode: Option<nat>, next: nat, firstCheck: bool, initNodes: seq<nat>, updateNodes: seq<nat>,
                      block: ProcessedBlock, decisions: seq<nat>, continueNode: nat, dummyTarget: nat, ghost base: nat)
      returns (r: Result<ProcessedNode, MethodProcessingError>)
      requires Valid(methodGraph) && next in methodGraph.nodes
      requires labelNode.Some? ==> labelNode.value in methodGraph.nodes && labelNode.value != continueNode && labelNode.value != dummyTarget
      requires LoopHeads(methodGraph.nodes, initNodes, updateNodes, decisions, block, base, continueNode, dummyTarget)
      requires |initNodes| > 0 ==> LoopPart(methodGraph.nodes, initNodes[|initNodes| - 1], base, continueNode, dummyTarget)
      requires |updateNodes| > 0 ==> LoopPart(methodGraph.nodes, updateNodes[|updateNodes| - 1], base, continueNode, dummyTarget)
      modifies this
      ensures Valid(methodGraph) && methodGraph.nextIndex == old(methodGraph.nextIndex)
      ensures ContinueTarget(updateNodes, decisions, block).Some? ==> methodGraph.nodes == old(methodGraph.nodes) - {continueNode, dummyTarget}
      ensures ContinueTarget(updateNodes, decisions, block).None? ==>
                && r.Err? && r.error.Panicked? && methodGraph.nodes == old(methodGraph.nodes)
                && methodGraph.edges == old(methodGraph.edges) + LoopChainLinks(initNodes, updateNodes, decisions, block, next)
      ensures r.Ok? ==> LoopRoot(initNodes, decisions, firstCheck, block, updateNodes).Some?
                        && r == Ok(Child(LoopRoot(initNodes, decisions, firstCheck, block, updateNodes).value))
      ensures r.Ok? ==> r.value.Child? && LoopPart(methodGraph.nodes, r.value.node, base, continueNode, dummyTarget)
      ensures r.Ok? ==> forall e :: e in methodGraph.edges <==>
        LoopJoinedEdge(LoopParts(initNodes, updateNodes, block, decisions, continueNode, dummyTarget, old(methodGraph)), labelNode, next, e)
    {
      ghost var p := LoopParts(initNodes, updateNodes, block, decisions, continueNode, dummyTarget, methodGraph);
      var continueTarget := ContinueTarget(updateNodes, decisions, block);
      if continueTarget.None? {
        LinkLoopChains(initNodes, updateNodes, decisions, block, next);
        r := Err(Panicked("a loop with no update, no condition and an empty body has no continue target"));
      } else {
        r := JoinLoop(labelNode, next, firstCheck, initNodes, updateNodes, block, decisions, continueNode, dummyTarget, base,
                      continueTarget.value, p);
      }
    }

    /**
     * Links the chains, moves what went to the loop's dummies to
     * `continueTarget`, removes them and picks the loop's entry node.
     */
    method JoinLoop(labelNode: Option<nat>, next: nat, firstCheck: bool, initNodes: seq<nat>, updateNodes: seq<nat>,
                    block: ProcessedBlock, decisions: seq<nat>, continueNode: nat, dummyTarget: nat, ghost base: nat,
                    continueTarget: nat, ghost p: LoopParts)
      returns (r: Result<ProcessedNode, MethodProcessingError>)
      requires Valid(methodGraph) && next in methodGraph.nodes
      requires continueTarget != continueNode && continueTarget != dummyTarget
      requires p == LoopParts(initNodes, updateNodes, block, decisions, continueNode, dummyTarget, methodGraph)
      requires Some(continueTarget) == ContinueTarget(updateNodes, decisions, block)
      requires labelNode.Some? ==> labelNode.value in methodGraph.nodes && labelNode.value != continueNode && labelNode.value != dummyTarget
      requires LoopHeads(methodGraph.nodes, initNodes, updateNodes, decisions, block, base, continueNode, dummyTarget)
      requires |initNodes| > 0 ==> LoopPart(methodGraph.nodes, initNodes[|initNodes| - 1], base, continueNode, dummyTarget)
      requires |updateNodes| > 0 ==> LoopPart(methodGraph.nodes, updateNodes[|updateNodes| - 1], base, continueNode, dummyTarget)
      modifies this
      ensures Valid(methodGraph) && methodGraph.nextIndex == old(methodGraph.nextIndex)
      ensures methodGraph.nodes == old(methodGraph.nodes) - {continueNode, dummyTarget}
      ensures var root := LoopRoot(initNodes, decisions, firstCheck, block, updateNodes);
        r == if root.Some? then Ok(Child(root.value)) else Err(Panicked("a do-while loop with an empty body has no entry node"))
      ensures r.Ok? ==> r.value.Child? && LoopPart(methodGraph.nodes, r.value.node, base, continueNode, dummyTarget)
      ensures r.Ok? ==> forall e :: e in methodGraph.edges <==> LoopJoinedEdge(p, labelNode, next, e)
    {
      LinkLoopChains(initNodes, updateNodes, decisions, block, next);
      ghost var g1 := methodGraph;
      RedirectLoopDummies(continueTarget, continueNode, dummyTarget);
      assert forall n :: LoopPart(g1.nodes, n, base, continueNode, dummyTarget) ==> LoopPart(methodGraph.nodes, n, base, continueNode, dummyTarget);
      assert LoopHeads(methodGraph.nodes, initNodes, updateNodes, decisions, block, base, continueNode, dummyTarget);
      ghost var g2 := methodGraph;
      r := LoopEntry(labelNode, firstCheck, initNodes, updateNodes, block, decisions, base, continueNode, dummyTarget);
      LoopJoinedEdges(p, labelNode, next, g1.edges, g2.edges, methodGraph.edges, r.Ok?);
    }

    /** Picks a loop's entry node and gives its label, if any, the edge a labelled `continue` follows. */
    method LoopEntry(labelNode: Option<nat>, firstCheck: bool, initNodes: seq<nat>, updateNodes: seq<nat>,
                     block: ProcessedBlock, decisions: seq<nat>, ghost base: nat, ghost continueNode: nat, ghost dummyTarget: nat)
      returns (r: Result<ProcessedNode, MethodProcessingError>)
      requires Valid(methodGraph)
      requires labelNode.Some? ==> labelNode.value in methodGraph.nodes
      requires LoopHeads(methodGraph.nodes, initNodes, updateNodes, decisions, block, base, continueNode, dummyTarget)
      modifies this
      ensures Valid(methodGraph) && methodGraph.nodes == old(methodGraph.nodes) && methodGraph.nextIndex == old(methodGraph.nextIndex)
      ensures var root := LoopRoot(initNodes, decisions, firstCheck, block, updateNodes);
        r == if root.Some? then Ok(Child(root.value)) else Err(Panicked("a do-while loop with an empty body has no entry node"))
      ensures r.Ok? ==> r.value.Child? && LoopPart(methodGraph.nodes, r.value.node, base, continueNode, dummyTarget)
      ensures var labeled := LabeledContinueTarget(decisions, block);
        forall e :: e in methodGraph.edges <==>
          e in old(methodGraph.edges) || (r.Ok? && labelNode.Some? && labeled.Some? && e == GraphEdge(labelNode.value, labeled.value, LabelContinue))
    {
      var root := LoopRoot(initNodes, decisions, firstCheck, block, updateNodes);
      if root.None? {
        r := Err(Panicked("a do-while loop with an empty body has no entry node"));
      } else {
        ghost var g := methodGraph;
        assert LoopPart(g.nodes, root.value, base, continueNode, dummyTarget);
        if labelNode.Some? {
          var labeled := LabeledContinueTarget(decisions, block);
          if labeled.Some? {
            methodGraph := AddEdge(methodGraph, labelNode.value, labeled.value, LabelContinue);
          }
        }
        r := Ok(Child(root.value));
      }
    }

    /** Links the last initialization and the last update statement to their targets. */
    method LinkLoopChains(initNodes: seq<nat>, updateNodes: seq<nat>, decisions: seq<nat>, block: ProcessedBlock, next: nat)
      requires Valid(methodGraph) && next in methodGraph.nodes
      requires |initNodes| > 0 ==> initNodes[|initNodes| - 1] in methodGraph.nodes
      requires |updateNodes| > 0 ==> updateNodes[0] in methodGraph.nodes && updateNodes[|updateNodes| - 1] in methodGraph.nodes
      requires |decisions| > 0 ==> decisions[0] in methodGraph.nodes
      requires StartOfBlock(block).Some? ==> StartOfBlock(block).value in methodGraph.nodes
      modifies this
      ensures Valid(methodGraph)
      ensures methodGraph.nodes == old(methodGraph.nodes) && methodGraph.nextIndex == old(methodGraph.nextIndex)
      ensures methodGraph.edges == old(methodGraph.edges) + LoopChainLinks(initNodes, updateNodes, decisions, block, next)
    {
      var g := methodGraph;
      if |initNodes| > 0 {
        g := AddEdge(g, initNodes[|initNodes| - 1], LoopInitTarget(updateNodes, next, block, decisions), StatementEdge);
      }
      if |updateNodes| > 0 {
        g := AddEdge(g, updateNodes[|updateNodes| - 1], LoopUpdateTarget(block, decisions, updateNodes[0]), StatementEdge);
      }
      methodGraph := g;
    }

    /**
     * Moves the edges into the continue dummy and into the body-end dummy
     * to `target` and removes both dummies.
     */
    method RedirectLoopDummies(target: nat, continueNode: nat, dummyTarget: nat)
      requires Valid(methodGraph) && target in methodGraph.nodes
      requires target != continueNode && target != dummyTarget
      modifies this
      ensures Valid(methodGraph)
      ensures methodGraph.nodes == old(methodGraph.nodes) - {continueNode, dummyTarget}
      ensures methodGraph.nextIndex == old(methodGraph.nextIndex)
      ensures forall e :: e in methodGraph.edges <==> LoopRetargeted(old(methodGraph.edges), continueNode, dummyTarget, target, e)
    {
      ghost var e0 := methodGraph.edges;
      Retarget(continueNode, target);
      ghost var e1 := methodGraph.edges;
      var dummyEdges := Incoming(methodGraph.edges, dummyTarget);
      if |dummyEdges| > 0 {
        Retarget(dummyTarget, target);
      } else {
        methodGraph := RemoveNode(methodGraph, dummyTarget);
        assert forall e :: e in methodGraph.edges <==> Retargeted(e1, dummyTarget, target, e) by {
          assert forall s: nat, w: Edge :: GraphEdge(s, dummyTarget, w) !in e1 by {
            forall s: nat, w: Edge ensures GraphEdge(s, dummyTarget, w) !in e1 {
              assert GraphEdge(s, dummyTarget, w) in e1 ==> (s, w) in dummyEdges;
            }
          }
        }
      }
      RetargetedTwice(e0, e1, methodGraph.edges, continueNode, dummyTarget, target);
    }
  
    /**
     * The depth-first label pass from `current`: a labeled `break` or
     * `continue` whose label is in scope gets an edge to the label's break or
     * continue target, and the label nodes met are collected for deletion.
     * A node already in `visited` is not entered again.
     */
    method ProcessLabelsRecurse(current: nat, labels: map<string, nat>, visited: set<nat>)
      returns (r: Result<seq<nat>, LabelProcessingError>, visitedOut: set<nat>)
      requires Valid(methodGraph) && current in methodGraph.nodes
      modifies this
      decreases |methodGraph.nodes.Keys - visited|, 1
      ensures Valid(methodGraph)
      ensures methodGraph.nodes == old(methodGraph.nodes) && methodGraph.nextIndex == old(methodGraph.nextIndex)
      ensures ControlEdgesAdded(methodGraph.nodes, old(methodGraph.edges), methodGraph.edges)
      ensures visited <= visitedOut <= visited + methodGraph.nodes.Keys
      ensures current in visited ==> r == Ok([]) && visitedOut == visited && methodGraph == old(methodGraph)
      ensures current !in visited ==> current in visitedOut
      ensures current !in visited && LabelError(old(methodGraph), current, labels).Some? ==>
                r == Err(LabelError(old(methodGraph), current, labels).value)
      ensures current !in visited && r.Ok? && LabelJump(old(methodGraph), current, labels).Some? ==>
                GraphEdge(current, LabelJump(old(methodGraph), current, labels).value, StatementEdge) in methodGraph.edges
      ensures r.Ok? ==> Distinct(r.value) && forall n :: n in r.value ==>
                n in visitedOut && n !in visited && methodGraph.nodes[n].nodeType.LabelNode?
      ensures var node := old(methodGraph).nodes[current];
        current !in visited && r.Ok? && node.nodeType.LabelNode? && node.nodeLabel.Some? ==> |r.value| > 0 && r.value[0] == current
    {
      if current in visited {
        return Ok([]), visited;
      }
      var err := LabelError(methodGraph, current, labels);
      if err.Some? {
        return Err(err.value), visited + {current};
      }
      ghost var g0 := methodGraph;
      var newLabels, here := LabelStep(current, labels);
      ghost var g1 := methodGraph;
      var neighbors := OutNeighbors(methodGraph.edges, current);
      OutNeighborsPresent(methodGraph, current);
      FewerUnvisited(methodGraph.nodes.Keys, visited, current);
      r, visitedOut := VisitNeighbors(neighbors, newLabels, visited + {current}, here);
      ControlEdgesAddedTrans(g0.nodes, g0.edges, g1.edges, methodGraph.edges);
      ghost var jump := LabelJump(g0, current, labels);
      if jump.Some? {
        EdgeKept(g1.edges, methodGraph.edges, GraphEdge(current, jump.value, StatementEdge));
      }
    }

    /** The label pass's work at one node: the jump edge of a labeled `break` or `continue`, and a label coming into scope. */
    method LabelStep(current: nat, labels: map<string, nat>) returns (newLabels: map<string, nat>, here: seq<nat>)
      requires Valid(methodGraph) && current in methodGraph.nodes
      modifies this
      ensures Valid(methodGraph)
      ensures methodGraph.nodes == old(methodGraph.nodes) && methodGraph.nextIndex == old(methodGraph.nextIndex)
      ensures ControlEdgesAdded(methodGraph.nodes, old(methodGraph.edges), methodGraph.edges)
      ensures var jump := LabelJump(old(methodGraph), current, labels);
        jump.Some? ==> GraphEdge(current, jump.value, StatementEdge) in methodGraph.edges
      ensures forall n :: n in here ==> n == current && methodGraph.nodes[n].nodeType.LabelNode?
      ensures var node := old(methodGraph).nodes[current];
        if node.nodeType.LabelNode? && node.nodeLabel.Some?
        then newLabels == labels[node.nodeLabel.value := current] && here == [current]
        else newLabels == labels && here == []
    {
      var node := methodGraph.nodes[current];
      var jump := LabelJump(methodGraph, current, labels);
      if jump.Some? {
        FindOutPresent(methodGraph, labels[node.nodeLabel.value], if node.nodeType.control.BreakControl? then LabelBreak else LabelContinue);
        methodGraph := AddEdge(methodGraph, current, jump.value, StatementEdge);
        assert methodGraph.edges[|methodGraph.edges| - 1] == GraphEdge(current, jump.value, StatementEdge);
      }
      if node.nodeType.LabelNode? && node.nodeLabel.Some? {
        newLabels, here := labels[node.nodeLabel.value := current], [current];
      } else {
        newLabels, here := labels, [];
      }
    }

    /** Runs the label pass from each of `neighbors` in turn, appending what each collects to `toDelete`. */
    method VisitNeighbors(neighbors: seq<nat>, labels: map<string, nat>, visited: set<nat>, toDelete: seq<nat>)
      returns (r: Result<seq<nat>, LabelProcessingError>, visitedOut: set<nat>)
      requires Valid(methodGraph) && forall n :: n in neighbors ==> n in methodGraph.nodes
      requires Distinct(toDelete) && forall n :: n in toDelete ==> n in visited && n in methodGraph.nodes && methodGraph.nodes[n].nodeType.LabelNode?
      modifies this
      decreases |methodGraph.nodes.Keys - visited|, 2
      ensures Valid(methodGraph)
      ensures methodGraph.nodes == old(methodGraph.nodes) && methodGraph.nextIndex == old(methodGraph.nextIndex)
      ensures ControlEdgesAdded(methodGraph.nodes, old(methodGraph.edges), methodGraph.edges)
      ensures visited <= visitedOut <= visited + methodGraph.nodes.Keys
      ensures r.Ok? ==>
        && Distinct(r.value) && |toDelete| <= |r.value| && r.value[..|toDelete|] == toDelete
        && forall n :: n in r.value ==>
             n in visitedOut && n in methodGraph.nodes && methodGraph.nodes[n].nodeType.LabelNode? && (n in visited ==> n in toDelete)
    {
      var acc := toDelete;
      var vis := visited;
      for i := 0 to |neighbors|
        invariant Valid(methodGraph) && methodGraph.nodes == old(methodGraph.nodes) && methodGraph.nextIndex == old(methodGraph.nextIndex)
        invariant ControlEdgesAdded(methodGraph.nodes, old(methodGraph.edges), methodGraph.edges)
        invariant visited <= vis <= visited + methodGraph.nodes.Keys
        invariant Distinct(acc) && |toDelete| <= |acc| && acc[..|toDelete|] == toDelete
        invariant forall n :: n in acc ==>
          n in vis && n in methodGraph.nodes && methodGraph.nodes[n].nodeType.LabelNode? && (n in visited ==> n in toDelete)
      {
        ghost var before := methodGraph.edges;
        NoMoreUnvisited(methodGraph.nodes.Keys, visited, vis);
        var sub, subVisited := ProcessLabelsRecurse(neighbors[i], labels, vis);
        ControlEdgesAddedTrans(methodGraph.nodes, old(methodGraph.edges), before, methodGraph.edges);
        if sub.Err? {
          return Err(sub.error), subVisited;
        }
        DistinctAppend(acc, sub.value, vis);
        assert (acc + sub.value)[..|toDelete|] == acc[..|toDelete|];
        acc, vis := acc + sub.value, subVisited;
      }
      r, visitedOut := Ok(acc), vis;
    }
  
    /**
     * Resolves the labels reachable from `start`: runs the label pass, then
     * deletes each label node it collected, first moving the label's incoming
     * edges to the target of its `LabelNext` edge.
     */
    method ProcessLabels(start: nat) returns (r: Result<(), MethodProcessingError>, ghost deleted: seq<nat>, ghost passed: Graph)
      requires Valid(methodGraph) && start in methodGraph.nodes
      modifies this
      ensures Valid(methodGraph) && methodGraph.nextIndex == old(methodGraph.nextIndex)
      ensures r.Ok? ==>
        && (forall n :: n in deleted ==> n in old(methodGraph.nodes) && old(methodGraph.nodes)[n].nodeType.LabelNode?)
        && (forall n :: n in methodGraph.nodes <==> n in old(methodGraph.nodes) && n !in deleted)
        && (forall n :: n in methodGraph.nodes ==> methodGraph.nodes[n] == old(methodGraph.nodes)[n])
      ensures r.Ok? ==>
        && passed.nodes == old(methodGraph.nodes)
        && ControlEdgesAdded(passed.nodes, old(methodGraph.edges), passed.edges)
        && DeleteLabels(passed, deleted) == Some(methodGraph)
      ensures r.Err? ==> r.error.LabelProcessing? || DeleteLabels(passed, deleted).None?
      ensures r.Ok? ==> forall e :: e in passed.edges && (forall k :: 0 <= k < |deleted| ==> e.source != deleted[k] && e.target != deleted[k])
                          ==> e in methodGraph.edges
      ensures r.Ok? ==> forall e :: e in methodGraph.edges ==>
        e in passed.edges || exists k :: 0 <= k < |deleted| && GraphEdge(e.source, deleted[k], e.weight) in passed.edges
    {
      var found, _ := ProcessLabelsRecurse(start, map[], {});
      passed := methodGraph;
      if found.Err? {
        return Err(LabelProcessing(found.error)), [], passed;
      }
      var toDelete := found.value;
      deleted := toDelete;
      var ok := DeleteLabelNodes(toDelete);
      if !ok {
        return Err(Panicked("a label node without a next edge")), deleted, passed;
      }
      r := Ok(());
      DeleteLabelsEdges(passed, deleted);
    }

    /** Deletes the label nodes `toDelete` in turn; fails at the first that has no `LabelNext` edge by then. */
    method DeleteLabelNodes(toDelete: seq<nat>) returns (ok: bool)
      requires Valid(methodGraph)
      modifies this
      ensures Valid(methodGraph) && methodGraph.nextIndex == old(methodGraph.nextIndex)
      ensures ok <==> DeleteLabels(old(methodGraph), toDelete).Some?
      ensures ok ==> DeleteLabels(old(methodGraph), toDelete) == Some(methodGraph)
    {
      for i := 0 to |toDelete|
        invariant Valid(methodGraph) && methodGraph.nextIndex == old(methodGraph.nextIndex)
        invariant DeleteLabels(old(methodGraph), toDelete) == DeleteLabels(methodGraph, toDelete[i..])
      {
        assert toDelete[i..][1..] == toDelete[i + 1..];
        ok := DeleteLabel(toDelete[i]);
        if !ok {
          return;
        }
      }
      assert toDelete[|toDelete|..] == [];
      ok := true;
    }

    /** Moves the incoming edges of a label node to the target of its `LabelNext` edge and deletes it. */
    method DeleteLabel(node: nat) returns (ok: bool)
      requires Valid(methodGraph)
      modifies this
      ensures Valid(methodGraph) && methodGraph.nextIndex == old(methodGraph.nextIndex)
      ensures ok <==> FindOut(old(methodGraph.edges), node, LabelNext).Some?
      ensures ok ==> methodGraph.nodes == old(methodGraph.nodes) - {node}
      ensures ok ==> forall e :: e in methodGraph.edges <==>
                       Retargeted(old(methodGraph.edges), node, FindOut(old(methodGraph.edges), node, LabelNext).value, e)
      ensures ok ==> DeleteLabelStep(old(methodGraph), node) == Some(methodGraph)
      ensures !ok ==> methodGraph == old(methodGraph)
    {
      var target := FindOut(methodGraph.edges, node, LabelNext);
      ok := target.Some?;
      if ok {
        FindOutPresent(methodGraph, node, LabelNext);
        RedirectedIncoming(methodGraph.edges, node, target.value);
        RedirectIncoming(node, target.value);
        methodGraph := RemoveNode(methodGraph, node);
      }
    }

    /**
     * Lowers a function: a source and a sink named after it, its body with
     * the sink as the node that follows, an edge from the source to the body's
     * start, then the label pass from the source.
     */
    method ProcessFunction(ctx: Ctx, fb: Contents) returns (r: Result<ProcessedNode, MethodProcessingError>)
      requires fb.FunctionBlock?
      requires Valid(methodGraph) && CtxIn(ctx, methodGraph)
      modifies this
      ensures Valid(methodGraph) && methodGraph.nextIndex >= old(methodGraph.nextIndex) + 2
      ensures r.Ok? ==>
        && r.value == Root
        && var source := old(methodGraph.nextIndex);
           && source in methodGraph.nodes && methodGraph.nodes[source] == Node(None, SourceNode(fb.name))
           && source + 1 in methodGraph.nodes && methodGraph.nodes[source + 1] == Node(None, SinkNode(fb.name))
    {
      var g := methodGraph;
      var source := g.nextIndex;
      g := AddNode(g, Node(None, SourceNode(fb.name)));
      var sink := g.nextIndex;
      g := AddNode(g, Node(None, SinkNode(fb.name)));
      methodGraph := g;
      var blockCtx := ctx.(sink := Some(sink), mostRecent := Some(sink));
      var block, _, _ := ProcessBlock(blockCtx, fb.block);
      if block.Err? {
        return Err(block.error);
      }
      var start := StartOfBlock(block.value);
      if start.Some? {
        methodGraph := AddEdge(methodGraph, source, start.value, StatementEdge);
      }
      var labels, _, _ := ProcessLabels(source);
      if labels.Err? {
        return Err(labels.error);
      }
      r := Ok(Root);
    }

    /**
     * The entry point: the tree of a named function becomes its control-flow
     * graph, whose source is node 0 and whose sink is node 1.
     */
    static method ProcessMethod(node: AstNode) returns (r: Result<Graph, MethodProcessingError>)
      ensures !node.contents.FunctionBlock? ==> r == Err(NotAMethod)
      ensures node.contents.FunctionBlock? && node.contents.name.None? ==> r == Err(TopLevelAnonMethod)
      ensures r.Ok? ==>
        && node.contents.FunctionBlock? && node.contents.name.Some?
        && Valid(r.value)
        && 0 in r.value.nodes && r.value.nodes[0] == Node(None, SourceNode(node.contents.name))
        && 1 in r.value.nodes && r.value.nodes[1] == Node(None, SinkNode(node.contents.name))
    {
      if !node.contents.FunctionBlock? {
        return Err(NotAMethod);
      }
      if node.contents.name.None? {
        return Err(TopLevelAnonMethod);
      }
      var processor := new AstProcessor();
      var res := processor.ProcessFunction(BaseCtx, node.contents);
      if res.Err? {
        return Err(res.error);
      }
      r := Ok(processor.methodGraph);
    }
  }
}
