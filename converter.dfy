/**
 * The flow-graph builder as the visitor it is: a converter holds the graph it
 * grows, the two counters that number the variables of rewritten for-each
 * loops, and the serial number of the next node it parses; visiting a method
 * declaration, and through it every statement of the method, changes them.
 *
 * A statement at position `p` of the method's tree is visited with the
 * enclosing loops, switches and if statements whose children are being
 * visited, innermost last; break and continue search that list for their
 * targets. Expressions are walked only for the statements inside them, which
 * have no vertex, so that an expression holding such a statement fails the
 * visit as the graph's lookup of the statement's vertex does.
 */
module AstToGraphConverter {
  import opened Wrappers
  import opened JavaAst
  import opened FlowNodes
  import opened FlowGraph
  import opened GraphBuilderSupport
  import opened AstToGraph

  /** Visiting an expression: only a statement inside a lambda touches the graph, and fails. */
  function CheckExpr(e: Expr): Result<(), ConvertError>
  {
    if StatementLambda(e) then Err(NoSuchVertex) else Ok(())
  }

  function CheckExprs(es: seq<Expr>): Result<(), ConvertError>
  {
    if StatementLambdas(es) then Err(NoSuchVertex) else Ok(())
  }

  /** The statements whose visit starts by requiring their vertex to have exactly one outgoing edge. */
  predicate Scaffolded(s: Stmt)
  {
    !(s.ExprStmt? || s.Empty? || s.Yield? || s.Throw? || s.Try?)
  }

  /**
   * The for-each loops of `s`, at position `p`, that the type of their
   * iterable at `resolve` turns into index loops (`index`) or into iterator
   * loops (not `index`), counting the loops among the statements visited.
   */
  function ForEachCount(s: Stmt, p: seq<nat>, resolve: seq<nat> -> ResolvedType, index: bool): nat
    decreases s, 1
  {
    match s
    case Block(ss) => ForEachCountIn(ss, p, |ss|, resolve, index)
    case If(_, th, el) => ForEachCount(th, p + [1], resolve, index) + (if el.Some? then ForEachCount(el.value, p + [2], resolve, index) else 0)
    case While(_, b) => ForEachCount(b, p + [1], resolve, index)
    case Do(b, _) => ForEachCount(b, p + [0], resolve, index)
    case For(_, _, _, b) => ForEachCount(b, p + [3], resolve, index)
    case ForEach(_, _, b) =>
      var ds := ChooseDesugaring(resolve(p + [1]));
      (if ds.Ok? && ds.value.IndexLoop? == index then 1 else 0) + ForEachCount(b, p + [2], resolve, index)
    case Switch(_, es) => ForEachCountEntries(es, p + [1], |es|, resolve, index)
    case Labeled(_, b) => ForEachCount(b, p + [0], resolve, index)
    case _ => 0
  }

  /** `ForEachCount` over the first `n` statements of `ss`, the `j`-th at `p + [j]`. */
  function ForEachCountIn(ss: seq<Stmt>, p: seq<nat>, n: nat, resolve: seq<nat> -> ResolvedType, index: bool): nat
    requires n <= |ss|
    decreases ss, 0, n
  {
    if n == 0 then 0 else ForEachCountIn(ss, p, n - 1, resolve, index) + ForEachCount(ss[n - 1], p + [n - 1], resolve, index)
  }

  /** `ForEachCount` over the statements of the first `n` switch entries of `es`, the `j`-th at `q + [j]`. */
  function ForEachCountEntries(es: seq<SwitchEntry>, q: seq<nat>, n: nat, resolve: seq<nat> -> ResolvedType, index: bool): nat
    requires n <= |es|
    decreases es, 0, n
  {
    if n == 0 then 0
    else ForEachCountEntries(es, q, n - 1, resolve, index) + ForEachCountIn(es[n - 1].body, q + [n - 1] + [1], |es[n - 1].body|, resolve, index)
  }

  class Converter {
    /** The graph being built. */
    var graph: Graph
    /** The number of the next index loop, shared by every converter (a static field). */
    var numIndexes: nat
    /** The number of the next iterator loop, shared by every converter (a static field). */
    var numIterators: nat
    /** The serial number the next parsed node gets. */
    var nextSerial: nat
    /** What symbol resolution says about the type of the expression at each position. */
    const resolve: seq<nat> -> ResolvedType

    /** A converter with an empty graph; the counters go on from what earlier converters left. */
    constructor (resolve: seq<nat> -> ResolvedType, numIndexes: nat, numIterators: nat)
      ensures this.resolve == resolve && graph == EmptyGraph
      ensures this.numIndexes == numIndexes && this.numIterators == numIterators && nextSerial == 0
    {
      this.resolve := resolve;
      graph := EmptyGraph;
      this.numIndexes := numIndexes;
      this.numIterators := numIterators;
      nextSerial := 0;
    }

    /**
     * Visiting a method declaration: its entry, exit, declaration and body
     * vertices, then its body as a block, then the declaration's vertex is
     * spliced out. A method without a body fails.
     */
    method VisitMethod(m: Method) returns (r: Result<(), ConvertError>)
      requires Valid(graph)
      modifies this
      ensures Valid(graph) && nextSerial >= old(nextSerial)
      ensures m.body.None? ==> r == Err(MissingMethodBody)
      ensures r.Ok? ==> m.body.Some? && MethodKey !in graph.vertices
      ensures r.Ok? ==> var b := Block(m.body.value);
                        && numIndexes == old(numIndexes) + ForEachCount(b, [0], resolve, true)
                        && numIterators == old(numIterators) + ForEachCount(b, [0], resolve, false)
    {
      var h :- ExpandMethod(graph, m.body.Some?);
      graph := h;
      var v :- VisitStmt(Block(m.body.value), [0], []);
      h :- FinishMethod(graph);
      graph := h;
      r := Ok(());
    }

    /** Visiting the statement `s` at `p` inside the enclosing statements `ctx`. */
    method VisitStmt(s: Stmt, p: seq<nat>, ctx: seq<Ancestor>) returns (r: Result<(), ConvertError>)
      requires Valid(graph)
      modifies this
      ensures Valid(graph) && nextSerial >= old(nextSerial)
      ensures r.Ok? ==> && numIndexes == old(numIndexes) + ForEachCount(s, p, resolve, true)
                        && numIterators == old(numIterators) + ForEachCount(s, p, resolve, false)
      ensures Scaffolded(s) && ScaffoldEdge(old(graph), At(p)).Err? ==> r == Err(ScaffoldEdge(old(graph), At(p)).error) && graph == old(graph)
      ensures s.Throw? || s.Try? ==> r == Err(Unsupported) && graph == old(graph)
      ensures s.ExprStmt? || s.Yield? ==> graph == old(graph) && (r.Err? <==> StatementLambda(if s.ExprStmt? then s.expr else s.yielded))
      ensures s.Empty? ==> r == Ok(()) && graph == old(graph)
      decreases s, 2
    {
      match s {
        case ExprStmt(e) => r := CheckExpr(e);
        case Yield(e) => r := CheckExpr(e);
        case Empty => r := Ok(());
        case Throw(_) => r := Err(Unsupported);
        case Try(_, _, _) => r := Err(Unsupported);
        case Break(_) => r := VisitBreak(s, p, ctx);
        case Continue(_) => r := VisitContinue(s, p, ctx);
        case Return(_) => r := VisitReturn(s, p, ctx);
        case _ => r := VisitCompound(s, p, ctx);
      }
    }

    /** Visiting a statement that has statements inside it. */
    method VisitCompound(s: Stmt, p: seq<nat>, ctx: seq<Ancestor>) returns (r: Result<(), ConvertError>)
      requires Valid(graph)
      requires s.Block? || s.If? || s.While? || s.Do? || s.For? || s.ForEach? || s.Switch? || s.Labeled?
      modifies this
      ensures Valid(graph) && nextSerial >= old(nextSerial)
      ensures r.Ok? ==> && numIndexes == old(numIndexes) + ForEachCount(s, p, resolve, true)
                        && numIterators == old(numIterators) + ForEachCount(s, p, resolve, false)
      ensures ScaffoldEdge(old(graph), At(p)).Err? ==> r == Err(ScaffoldEdge(old(graph), At(p)).error) && graph == old(graph)
      decreases s, 1
    {
      match s {
        case Block(_) => r := VisitBlock(s, p, ctx);
        case If(_, _, _) => r := VisitIf(s, p, ctx);
        case While(_, _) => r := VisitWhile(s, p, ctx);
        case Do(_, _) => r := VisitDo(s, p, ctx);
        case For(_, _, _, _) => r := VisitFor(s, p, ctx);
        case ForEach(_, _, _) => r := VisitForEach(s, p, ctx);
        case Switch(_, _) => r := VisitSwitch(s, p, ctx);
        case Labeled(_, _) => r := VisitLabeled(s, p, ctx);
      }
    }

    /** Visiting the statements `ss`, the `j`-th at `p + [j]`, in order, up to the first failure. */
    method VisitStmts(ss: seq<Stmt>, p: seq<nat>, ctx: seq<Ancestor>) returns (r: Result<(), ConvertError>)
      requires Valid(graph)
      modifies this
      ensures Valid(graph) && nextSerial >= old(nextSerial)
      ensures r.Ok? ==> && numIndexes == old(numIndexes) + ForEachCountIn(ss, p, |ss|, resolve, true)
                        && numIterators == old(numIterators) + ForEachCountIn(ss, p, |ss|, resolve, false)
      decreases ss, 1
    {
      var i := 0;
      while i < |ss|
        invariant 0 <= i <= |ss|
        invariant Valid(graph) && nextSerial >= old(nextSerial)
        invariant numIndexes == old(numIndexes) + ForEachCountIn(ss, p, i, resolve, true)
        invariant numIterators == old(numIterators) + ForEachCountIn(ss, p, i, resolve, false)
      {
        var v :- VisitStmt(ss[i], p + [i], ctx);
        i := i + 1;
      }
      r := Ok(());
    }

    /** A block: its statements chained in its vertex's place, then each visited. */
    method VisitBlock(s: Stmt, p: seq<nat>, ctx: seq<Ancestor>) returns (r: Result<(), ConvertError>)
      requires s.Block? && Valid(graph)
      modifies this
      ensures Valid(graph) && nextSerial >= old(nextSerial)
      ensures r.Ok? ==> && numIndexes == old(numIndexes) + ForEachCount(s, p, resolve, true)
                        && numIterators == old(numIterators) + ForEachCount(s, p, resolve, false)
      ensures ScaffoldEdge(old(graph), At(p)).Err? ==> r == Err(ScaffoldEdge(old(graph), At(p)).error) && graph == old(graph)
      decreases s, 0
    {
      var e :- ScaffoldEdge(graph, At(p));
      graph := ExpandBlock(graph, p, e, |s.stmts|);
      var v :- VisitStmts(s.stmts, p, ctx);
      r := Ok(());
    }

    /**
     * An if statement: the decision and its branches, then the condition, the
     * else branch and the then branch are visited, and the statement's vertex
     * is spliced out in favour of the decision.
     */
    method VisitIf(s: Stmt, p: seq<nat>, ctx: seq<Ancestor>) returns (r: Result<(), ConvertError>)
      requires s.If? && Valid(graph)
      modifies this
      ensures Valid(graph) && nextSerial >= old(nextSerial)
      ensures r.Ok? ==> && numIndexes == old(numIndexes) + ForEachCount(s, p, resolve, true)
                        && numIterators == old(numIterators) + ForEachCount(s, p, resolve, false)
      ensures ScaffoldEdge(old(graph), At(p)).Err? ==> r == Err(ScaffoldEdge(old(graph), At(p)).error) && graph == old(graph)
      ensures r.Ok? ==> At(p) !in graph.vertices
      decreases s, 0
    {
      var e :- ScaffoldEdge(graph, At(p));
      graph := ExpandIf(graph, p, e, s.elseStmt.Some?);
      var inner := ctx + [Ancestor(At(p), IfStmt)];
      var v :- CheckExpr(s.cond);
      if s.elseStmt.Some? {
        v :- VisitStmt(s.elseStmt.value, p + [2], inner);
      }
      v :- VisitStmt(s.thenStmt, p + [1], inner);
      var h :- ReplaceChecked(graph, At(p), At(p + [0]));
      graph := h;
      r := Ok(());
    }

    /** A while loop: its decision and body, both visited, then its vertex spliced out in favour of the decision. */
    method VisitWhile(s: Stmt, p: seq<nat>, ctx: seq<Ancestor>) returns (r: Result<(), ConvertError>)
      requires s.While? && Valid(graph)
      modifies this
      ensures Valid(graph) && nextSerial >= old(nextSerial)
      ensures r.Ok? ==> && numIndexes == old(numIndexes) + ForEachCount(s, p, resolve, true)
                        && numIterators == old(numIterators) + ForEachCount(s, p, resolve, false)
      ensures ScaffoldEdge(old(graph), At(p)).Err? ==> r == Err(ScaffoldEdge(old(graph), At(p)).error) && graph == old(graph)
      ensures r.Ok? ==> At(p) !in graph.vertices
      decreases s, 0
    {
      var e :- ScaffoldEdge(graph, At(p));
      graph := ExpandWhile(graph, p, e);
      var v :- VisitStmt(s.body, p + [1], ctx + [Ancestor(At(p), LoopStmt)]);
      v :- CheckExpr(s.cond);
      var h :- ReplaceChecked(graph, At(p), At(p + [0]));
      graph := h;
      r := Ok(());
    }

    /** A do loop: its body and decision, both visited, then what entered its vertex also enters the body. */
    method VisitDo(s: Stmt, p: seq<nat>, ctx: seq<Ancestor>) returns (r: Result<(), ConvertError>)
      requires s.Do? && Valid(graph)
      modifies this
      ensures Valid(graph) && nextSerial >= old(nextSerial)
      ensures r.Ok? ==> && numIndexes == old(numIndexes) + ForEachCount(s, p, resolve, true)
                        && numIterators == old(numIterators) + ForEachCount(s, p, resolve, false)
      ensures ScaffoldEdge(old(graph), At(p)).Err? ==> r == Err(ScaffoldEdge(old(graph), At(p)).error) && graph == old(graph)
      ensures r.Ok? ==> At(p) in graph.vertices
      decreases s, 0
    {
      var e :- ScaffoldEdge(graph, At(p));
      graph := ExpandDo(graph, p, e);
      var v :- VisitStmt(s.body, p + [0], ctx + [Ancestor(At(p), LoopStmt)]);
      v :- CheckExpr(s.cond);
      var h :- FinishDo(graph, At(p));
      graph := h;
      r := Ok(());
    }

    /**
     * A for loop: its header and tail, then its body, compare, initialisation
     * and update are visited, and its vertex is spliced out when it still has
     * an untagged edge.
     */
    method VisitFor(s: Stmt, p: seq<nat>, ctx: seq<Ancestor>) returns (r: Result<(), ConvertError>)
      requires s.For? && Valid(graph)
      modifies this
      ensures Valid(graph) && nextSerial >= old(nextSerial)
      ensures r.Ok? ==> && numIndexes == old(numIndexes) + ForEachCount(s, p, resolve, true)
                        && numIterators == old(numIterators) + ForEachCount(s, p, resolve, false)
      ensures ScaffoldEdge(old(graph), At(p)).Err? ==> r == Err(ScaffoldEdge(old(graph), At(p)).error) && graph == old(graph)
      decreases s, 0
    {
      var e :- ScaffoldEdge(graph, At(p));
      graph := ExpandFor(graph, p, e, |s.init|, s.compare.Some?, |s.update|);
      var v :- VisitStmt(s.body, p + [3], ctx + [Ancestor(At(p), LoopStmt)]);
      if s.compare.Some? {
        v :- CheckExpr(s.compare.value);
      }
      v :- CheckExprs(s.init);
      v :- CheckExprs(s.update);
      var h :- FinishFor(graph, At(p));
      graph := h;
      r := Ok(());
    }

    /**
     * A for-each loop: the rewriting the iterable's type calls for, numbered by
     * the matching counter, which then rises by one; then the body and the
     * iterable are visited and the loop's vertex is spliced out in favour of
     * the rewriting's first statement.
     */
    method VisitForEach(s: Stmt, p: seq<nat>, ctx: seq<Ancestor>) returns (r: Result<(), ConvertError>)
      requires s.ForEach? && Valid(graph)
      modifies this
      ensures Valid(graph) && nextSerial >= old(nextSerial)
      ensures r.Ok? ==> && numIndexes == old(numIndexes) + ForEachCount(s, p, resolve, true)
                        && numIterators == old(numIterators) + ForEachCount(s, p, resolve, false)
      ensures ScaffoldEdge(old(graph), At(p)).Err? ==> r == Err(ScaffoldEdge(old(graph), At(p)).error) && graph == old(graph)
      ensures ScaffoldEdge(old(graph), At(p)).Ok? && ChooseDesugaring(resolve(p + [1])).Err? ==>
                r == Err(ChooseDesugaring(resolve(p + [1])).error) && graph == old(graph)
      ensures r.Ok? ==> At(p) !in graph.vertices
      decreases s, 0
    {
      var start :- EnterForEach(s, p);
      var v :- VisitStmt(s.body, p + [2], ctx + [Ancestor(At(p), LoopStmt)]);
      v :- CheckExpr(s.iterable);
      var h :- ReplaceChecked(graph, At(p), start);
      graph := h;
      r := Ok(());
    }

    /**
     * The first half of visiting a for-each loop: the rewriting chosen and
     * wired, its parsed statements numbered from the next serial number, and
     * the matching counter raised; the result is the rewriting's first
     * statement.
     */
    method EnterForEach(s: Stmt, p: seq<nat>) returns (r: Result<Key, ConvertError>)
      requires s.ForEach? && Valid(graph)
      modifies this
      ensures Valid(graph) && nextSerial >= old(nextSerial)
      ensures ScaffoldEdge(old(graph), At(p)).Err? ==> r == Err(ScaffoldEdge(old(graph), At(p)).error) && graph == old(graph)
      ensures var ds := ChooseDesugaring(resolve(p + [1]));
              ScaffoldEdge(old(graph), At(p)).Ok? ==>
              && (ds.Err? ==> r == Err(ds.error) && graph == old(graph))
              && (ds.Ok? ==> r.Ok?)
      ensures var ds := ChooseDesugaring(resolve(p + [1]));
              r.Ok? ==> && ds.Ok?
                        && numIndexes == old(numIndexes) + (if ds.value.IndexLoop? then 1 else 0)
                        && numIterators == old(numIterators) + (if ds.value.IndexLoop? then 0 else 1)
    {
      var e :- ScaffoldEdge(graph, At(p));
      var ds :- ChooseDesugaring(resolve(p + [1]));
      var n := if ds.IndexLoop? then numIndexes else numIterators;
      var serial := nextSerial;
      var ks := ForEachParts(serial, s.variable, PrintExpr(s.iterable), ds, n);
      nextSerial := nextSerial + |ks|;
      graph := ExpandForEach(graph, p, e, s.variable, PrintExpr(s.iterable), ds, n, serial);
      if ds.IndexLoop? {
        numIndexes := numIndexes + 1;
      } else {
        numIterators := numIterators + 1;
      }
      r := Ok(ForEachStart(ks, ds));
    }

    /**
     * A switch: the chain of its entries, then each entry and the selector are
     * visited, and the switch's vertex is spliced out in favour of the first
     * vertex it leads to other than its successor.
     */
    method VisitSwitch(s: Stmt, p: seq<nat>, ctx: seq<Ancestor>) returns (r: Result<(), ConvertError>)
      requires s.Switch? && Valid(graph)
      modifies this
      ensures Valid(graph) && nextSerial >= old(nextSerial)
      ensures r.Ok? ==> && numIndexes == old(numIndexes) + ForEachCount(s, p, resolve, true)
                        && numIterators == old(numIterators) + ForEachCount(s, p, resolve, false)
      ensures ScaffoldEdge(old(graph), At(p)).Err? ==> r == Err(ScaffoldEdge(old(graph), At(p)).error) && graph == old(graph)
      ensures r.Ok? ==> At(p) !in graph.vertices
      decreases s, 0
    {
      var e :- ScaffoldEdge(graph, At(p));
      graph := ExpandSwitch(graph, p, e, |s.entries|, PrintExpr(s.selector));
      var inner := ctx + [Ancestor(At(p), SwitchStmt)];
      var i := 0;
      while i < |s.entries|
        invariant 0 <= i <= |s.entries|
        invariant Valid(graph) && nextSerial >= old(nextSerial)
        invariant numIndexes == old(numIndexes) + ForEachCountEntries(s.entries, p + [1], i, resolve, true)
        invariant numIterators == old(numIterators) + ForEachCountEntries(s.entries, p + [1], i, resolve, false)
      {
        var v :- VisitEntry(s.entries[i], p + [1] + [i], inner);
        i := i + 1;
      }
      var v :- CheckExpr(s.selector);
      var h :- FinishSwitch(graph, At(p), e.target);
      graph := h;
      r := Ok(());
    }

    /**
     * A switch entry at `q`: an entry with labels is first replaced by its
     * parsed test; then its statements are chained, its labels and statements
     * visited, and a `default` entry's vertex is spliced out.
     */
    method VisitEntry(en: SwitchEntry, q: seq<nat>, ctx: seq<Ancestor>) returns (r: Result<(), ConvertError>)
      requires Valid(graph)
      modifies this
      ensures Valid(graph) && nextSerial >= old(nextSerial)
      ensures r.Ok? ==> && numIndexes == old(numIndexes) + ForEachCountIn(en.body, q + [1], |en.body|, resolve, true)
                        && numIterators == old(numIterators) + ForEachCountIn(en.body, q + [1], |en.body|, resolve, false)
      ensures At(q) !in old(graph).vertices ==> r == Err(NoSuchVertex)
      ensures At(q) in old(graph).vertices && Incoming(old(graph), At(q)) == [] ==> r == Err(NoSuchElement)
      ensures r.Ok? && |en.labels| == 0 ==> At(q) !in graph.vertices
      decreases en, 1
    {
      var src :- EnterEntry(en, q);
      var v :- CheckExprs(en.labels);
      v :- VisitStmts(en.body, q + [1], ctx);
      if |en.labels| == 0 {
        var h :- FinishDefault(graph, src);
        graph := h;
      }
      r := Ok(());
    }

    /**
     * The first half of visiting a switch entry at `q`: its test, parsed with
     * the next serial number, when it has labels, and its statements chained;
     * the result is the vertex the entry is entered through, the entry's own
     * for `default`.
     */
    method EnterEntry(en: SwitchEntry, q: seq<nat>) returns (r: Result<Key, ConvertError>)
      requires Valid(graph)
      modifies this
      ensures Valid(graph) && numIndexes == old(numIndexes) && numIterators == old(numIterators)
      ensures nextSerial == old(nextSerial) + (if |en.labels| > 0 then 1 else 0)
      ensures At(q) !in old(graph).vertices ==> r == Err(NoSuchVertex)
      ensures At(q) in old(graph).vertices && Incoming(old(graph), At(q)) == [] ==> r == Err(NoSuchElement)
      ensures r.Ok? ==> At(q) in old(graph).vertices && r.value == EntrySource(old(graph), q, en.labels, old(nextSerial))
    {
      var serial := nextSerial;
      if |en.labels| > 0 {
        nextSerial := nextSerial + 1;
      }
      var h :- EntryCondition(graph, q, en.labels, serial);
      var src := EntrySource(graph, q, en.labels, serial);
      graph := h;
      h :- ExpandEntry(graph, q, src, |en.body|, |en.labels| > 0);
      graph := h;
      r := Ok(src);
    }

    /** A labelled statement: the inner statement's vertex, carrying the label, in its place, then visited. */
    method VisitLabeled(s: Stmt, p: seq<nat>, ctx: seq<Ancestor>) returns (r: Result<(), ConvertError>)
      requires s.Labeled? && Valid(graph)
      modifies this
      ensures Valid(graph) && nextSerial >= old(nextSerial)
      ensures r.Ok? ==> && numIndexes == old(numIndexes) + ForEachCount(s, p, resolve, true)
                        && numIterators == old(numIterators) + ForEachCount(s, p, resolve, false)
      ensures ScaffoldEdge(old(graph), At(p)).Err? ==> r == Err(ScaffoldEdge(old(graph), At(p)).error) && graph == old(graph)
      decreases s, 0
    {
      var e :- ScaffoldEdge(graph, At(p));
      var h :- ExpandLabeled(graph, p, e, s.labelName);
      graph := h;
      var v :- VisitStmt(s.stmt, p + [0], ctx);
      r := Ok(());
    }

    /** A break: its vertex is spliced out in favour of the false-edge target of the enclosing statement it names or of the innermost loop or switch. */
    method VisitBreak(s: Stmt, p: seq<nat>, ctx: seq<Ancestor>) returns (r: Result<(), ConvertError>)
      requires s.Break? && Valid(graph)
      modifies this
      ensures Valid(graph) && nextSerial == old(nextSerial)
      ensures numIndexes == old(numIndexes) && numIterators == old(numIterators)
      ensures ScaffoldEdge(old(graph), At(p)).Err? ==> r == Err(ScaffoldEdge(old(graph), At(p)).error) && graph == old(graph)
      ensures var t := BreakTarget(old(graph), ctx, s.breakLabel);
              ScaffoldEdge(old(graph), At(p)).Ok? && t.Err? ==> r == Err(t.error) && graph == old(graph)
      ensures var t := BreakTarget(old(graph), ctx, s.breakLabel);
              ScaffoldEdge(old(graph), At(p)).Ok? && t.Ok? ==>
              r == Ok(()) && graph == RemoveVertex(RerouteIncoming(RemoveOutgoing(old(graph), At(p)), At(p), t.value), At(p))
      decreases s, 1
    {
      var e :- ScaffoldEdge(graph, At(p));
      var target :- BreakTarget(graph, ctx, s.breakLabel);
      EndpointInGraph(graph, target);
      graph := JumpTo(graph, At(p), target);
      r := Ok(());
    }

    /** A continue: its vertex is spliced out in favour of the true-edge target of the loop it names or of the innermost loop. */
    method VisitContinue(s: Stmt, p: seq<nat>, ctx: seq<Ancestor>) returns (r: Result<(), ConvertError>)
      requires s.Continue? && Valid(graph)
      modifies this
      ensures Valid(graph) && nextSerial == old(nextSerial)
      ensures numIndexes == old(numIndexes) && numIterators == old(numIterators)
      ensures ScaffoldEdge(old(graph), At(p)).Err? ==> r == Err(ScaffoldEdge(old(graph), At(p)).error) && graph == old(graph)
      ensures var t := ContinueTarget(old(graph), ctx, s.continueLabel);
              ScaffoldEdge(old(graph), At(p)).Ok? && t.Err? ==> r == Err(t.error) && graph == old(graph)
      ensures var t := ContinueTarget(old(graph), ctx, s.continueLabel);
              ScaffoldEdge(old(graph), At(p)).Ok? && t.Ok? ==>
              r == Ok(()) && graph == RemoveVertex(RerouteIncoming(RemoveOutgoing(old(graph), At(p)), At(p), t.value), At(p))
      decreases s, 1
    {
      var e :- ScaffoldEdge(graph, At(p));
      var target :- ContinueTarget(graph, ctx, s.continueLabel);
      EndpointInGraph(graph, target);
      graph := JumpTo(graph, At(p), target);
      r := Ok(());
    }

    /** A return: its vertex's single edge then leads to the method's exit; its expression is visited after. */
    method VisitReturn(s: Stmt, p: seq<nat>, ctx: seq<Ancestor>) returns (r: Result<(), ConvertError>)
      requires s.Return? && Valid(graph)
      modifies this
      ensures Valid(graph) && nextSerial == old(nextSerial)
      ensures numIndexes == old(numIndexes) && numIterators == old(numIterators)
      ensures ScaffoldEdge(old(graph), At(p)).Err? ==> r == Err(ScaffoldEdge(old(graph), At(p)).error) && graph == old(graph)
      ensures ScaffoldEdge(old(graph), At(p)).Ok? && Exit !in old(graph).vertices ==> r == Err(NoSuchVertex) && graph == old(graph)
      ensures ScaffoldEdge(old(graph), At(p)).Ok? && Exit in old(graph).vertices ==>
              && graph.vertices == old(graph).vertices && Outgoing(graph, At(p)) == [FlowEdge(At(p), Exit, None)]
              && (r.Err? <==> s.result.Some? && StatementLambda(s.result.value))
      decreases s, 1
    {
      var e :- ScaffoldEdge(graph, At(p));
      var h :- ReturnTo(graph, At(p));
      graph := h;
      if s.result.Some? {
        var v :- CheckExpr(s.result.value);
      }
      r := Ok(());
    }
  }

  /** A vertex an edge of a valid graph touches, or one of its vertices, is one of its vertices. */
  lemma EndpointInGraph(g: Graph, k: Key)
    requires Valid(g) && (k in g.vertices || exists e | e in g.edges :: e.target == k)
    ensures k in g.vertices
  {
  }
}
