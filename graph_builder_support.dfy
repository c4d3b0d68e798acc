/**
 * What the flow-graph builder needs besides the graph itself: vertex
 * identities taken from tree positions, the searches for the enclosing
 * statements that break, continue and return jump to, the texts of the
 * statements a for-each loop is rewritten into, and its error conditions.
 */
module GraphBuilderSupport {
  import opened Wrappers
  import opened JavaAst
  import opened FlowNodes
  import opened FlowGraph

  /** The exceptions the builder can end with. */
  datatype ConvertError =
    /** IllegalStateException: a visited vertex has other than one outgoing edge. */
    | OutDegreeNotOne(found: nat)
    /** IllegalStateException: a method without a body. */
    | MissingMethodBody
    /** IllegalStateException: a labelled continue that names an if statement. */
    | ContinueToLabeledIf
    /** IllegalStateException: a for-each over a type with other than one type parameter. */
    | TypeArgumentCount(found: nat)
    /** UnsupportedOperationException: the one type argument of a for-each iterable is not a reference type. */
    | ArgumentNotReference
    /** NoSuchElementException from an empty `Optional` or stream. */
    | NoSuchElement
    /** UnsupportedOperationException: try and throw, or a for-each over a primitive type. */
    | Unsupported
    /** Symbol resolution could not find the type of a for-each iterable. */
    | UnsolvedType
    /** IllegalArgumentException: the graph was asked about a vertex it does not have. */
    | NoSuchVertex
    /** The enclosing statement a jump refers to was not found. */
    | AncestorNotFound

  // Positions

  /** The vertex for the node at position `p` of the method's tree. */
  function At(p: seq<nat>): Key
  {
    NodeKey(AstPath(p))
  }

  /** Positions that differ in their last step are distinct vertices. */
  lemma StepsDistinct(p: seq<nat>, a: seq<nat>, b: seq<nat>)
    requires |a| > 0 && |b| > 0 && a[0] != b[0]
    ensures At(p + a) != At(p + b)
  {
    assert (p + a)[|p|] == a[0] && (p + b)[|p|] == b[0];
  }

  /** The vertices of the first `n` children of the node at `q`, in order. */
  function Children(q: seq<nat>, n: nat): (r: seq<Key>)
    ensures |r| == n && forall i | 0 <= i < n :: r[i] == At(q + [i])
  {
    seq(n, i requires 0 <= i < n => At(q + [i]))
  }

  /** No key occurs twice in `ks`. */
  predicate Distinct(ks: seq<Key>)
  {
    forall i, j | 0 <= i < j < |ks| :: ks[i] != ks[j]
  }

  /** Siblings are distinct vertices. */
  lemma ChildrenAreDistinct(q: seq<nat>, n: nat)
    ensures Distinct(Children(q, n))
  {
    forall i, j | 0 <= i < j < n ensures At(q + [i]) != At(q + [j]) {
      StepsDistinct(q, [i], [j]);
    }
  }

  // The one outgoing edge of a statement's vertex

  /**
   * The constructor of the helper `Edge`: the single outgoing edge of the
   * vertex; the graph rejects an absent vertex, and any other number of edges
   * is an illegal state.
   */
  function ScaffoldEdge(g: Graph, k: Key): (r: Result<FlowEdge, ConvertError>)
    ensures r.Ok? <==> k in g.vertices && |Outgoing(g, k)| == 1
    ensures r.Ok? ==> Outgoing(g, k) == [r.value] && r.value.source == k && r.value in g.edges
    ensures k !in g.vertices ==> r == Err(NoSuchVertex)
    ensures k in g.vertices && |Outgoing(g, k)| != 1 ==> r == Err(OutDegreeNotOne(|Outgoing(g, k)|))
  {
    if k !in g.vertices then Err(NoSuchVertex)
    else
      var out := Outgoing(g, k);
      if |out| != 1 then Err(OutDegreeNotOne(|out|))
      else
        assert out[0] in out;
        Ok(out[0])
  }

  /** The first edge of `es` carrying tag `c` (None for an untagged edge). */
  function FirstWithTag(es: seq<FlowEdge>, c: Option<bool>): (r: Option<FlowEdge>)
    ensures r.Some? <==> exists e | e in es :: e.flowCondition == c
    ensures r.Some? ==> r.value in es && r.value.flowCondition == c
    ensures r.Some? ==> exists i | 0 <= i < |es| :: es[i] == r.value && forall j | 0 <= j < i :: es[j].flowCondition != c
  {
    if |es| == 0 then None
    else if es[0].flowCondition == c then Some(es[0])
    else
      var r := FirstWithTag(es[1..], c);
      assert forall e | e in es[1..] :: e in es;
      assert forall e | e in es :: e == es[0] || e in es[1..];
      if r.Some? then
        var i :| 0 <= i < |es[1..]| && es[1..][i] == r.value && forall j | 0 <= j < i :: es[1..][j].flowCondition != c;
        assert es[i + 1] == r.value;
        assert forall j | 0 <= j < i + 1 :: es[j].flowCondition != c by {
          forall j | 0 <= j < i + 1 ensures es[j].flowCondition != c {
            if j > 0 { assert es[j] == es[1..][j - 1]; }
          }
        }
        r
      else r
  }

  /** The first edge of `es` whose target is not `k`. */
  function FirstNotInto(es: seq<FlowEdge>, k: Key): (r: Option<FlowEdge>)
    ensures r.Some? <==> exists e | e in es :: e.target != k
    ensures r.Some? ==> r.value in es && r.value.target != k
  {
    if |es| == 0 then None
    else if es[0].target != k then Some(es[0])
    else
      assert forall e | e in es[1..] :: e in es;
      assert forall e | e in es :: e == es[0] || e in es[1..];
      FirstNotInto(es[1..], k)
  }

  /** Consecutive edges along `ks`, each tagged `c`. */
  function Chain(ks: seq<Key>, c: Option<bool>): (r: seq<FlowEdge>)
    ensures |r| == if |ks| == 0 then 0 else |ks| - 1
    ensures forall i | 0 <= i < |r| :: r[i] == FlowEdge(ks[i], ks[i + 1], c)
  {
    if |ks| < 2 then [] else seq(|ks| - 1, i requires 0 <= i < |ks| - 1 => FlowEdge(ks[i], ks[i + 1], c))
  }

  lemma ChainExtend(ks: seq<Key>, k: Key, c: Option<bool>)
    requires |ks| > 0
    ensures Chain(ks + [k], c) == Chain(ks, c) + [FlowEdge(ks[|ks| - 1], k, c)]
  {
  }

  /** A chain leaves only from the vertices before its last one. */
  lemma ChainSources(ks: seq<Key>, c: Option<bool>, k: Key)
    requires forall i | 0 <= i < |ks| - 1 :: ks[i] != k
    ensures forall x | x in Chain(ks, c) :: x.source != k
  {
    forall x | x in Chain(ks, c) ensures x.source != k {
      var i :| 0 <= i < |Chain(ks, c)| && Chain(ks, c)[i] == x;
    }
  }

  // Enclosing statements

  datatype AncestorKind = LoopStmt | SwitchStmt | IfStmt

  /** An enclosing statement whose children are being visited, and the vertex it was given. */
  datatype Ancestor = Ancestor(key: Key, kind: AncestorKind)

  /** The innermost enclosing loop or switch whose vertex is still in the graph. */
  function NearestBreakable(g: Graph, ctx: seq<Ancestor>): (r: Option<Key>)
    ensures r.Some? <==> exists a | a in ctx :: a.kind != IfStmt && a.key in g.vertices
    ensures r.Some? ==> r.value in g.vertices
    decreases |ctx|
  {
    if |ctx| == 0 then None
    else
      var a := ctx[|ctx| - 1];
      assert forall x | x in ctx :: x == a || x in ctx[..|ctx| - 1];
      if a.kind != IfStmt && a.key in g.vertices then Some(a.key) else NearestBreakable(g, ctx[..|ctx| - 1])
  }

  /** The innermost enclosing loop whose vertex is still in the graph. */
  function NearestContinuable(g: Graph, ctx: seq<Ancestor>): (r: Option<Key>)
    ensures r.Some? <==> exists a | a in ctx :: a.kind == LoopStmt && a.key in g.vertices
    ensures r.Some? ==> r.value in g.vertices
    decreases |ctx|
  {
    if |ctx| == 0 then None
    else
      var a := ctx[|ctx| - 1];
      assert forall x | x in ctx :: x == a || x in ctx[..|ctx| - 1];
      if a.kind == LoopStmt && a.key in g.vertices then Some(a.key) else NearestContinuable(g, ctx[..|ctx| - 1])
  }

  /** The innermost enclosing statement whose vertex carries label `l`. */
  function LabeledAncestor(g: Graph, ctx: seq<Ancestor>, l: string): (r: Option<Ancestor>)
    ensures r.Some? <==> exists a | a in ctx :: a.key in g.vertices && g.vertices[a.key].stmtLabel == Some(l)
    ensures r.Some? ==> r.value in ctx && r.value.key in g.vertices && g.vertices[r.value.key].stmtLabel == Some(l)
    decreases |ctx|
  {
    if |ctx| == 0 then None
    else
      var a := ctx[|ctx| - 1];
      assert forall x | x in ctx :: x == a || x in ctx[..|ctx| - 1];
      if a.key in g.vertices && g.vertices[a.key].stmtLabel == Some(l) then Some(a)
      else LabeledAncestor(g, ctx[..|ctx| - 1], l)
  }

  /** The vertex a return statement jumps to: the method's exit. */
  const Exit: Key := NameKey("after")

  /**
   * Where a break goes: the target of the first false-tagged edge out of the
   * labelled or innermost breakable enclosing statement.
   */
  function BreakTarget(g: Graph, ctx: seq<Ancestor>, l: Option<string>): (r: Result<Key, ConvertError>)
    ensures r.Ok? ==> r.value in g.vertices || exists e | e in g.edges :: e.target == r.value
    ensures l.None? && NearestBreakable(g, ctx).None? ==> r == Err(AncestorNotFound)
    ensures l.Some? && LabeledAncestor(g, ctx, l.value).None? ==> r == Err(AncestorNotFound)
    ensures r.Ok? ==>
              var anc := if l.Some? then LabeledAncestor(g, ctx, l.value).value.key else NearestBreakable(g, ctx).value;
              FirstWithTag(Outgoing(g, anc), Some(false)).Some? && FirstWithTag(Outgoing(g, anc), Some(false)).value.target == r.value
  {
    var anc :- if l.Some? then
                 (var a := LabeledAncestor(g, ctx, l.value); if a.Some? then Ok(a.value.key) else Err(AncestorNotFound))
               else
                 (var a := NearestBreakable(g, ctx); if a.Some? then Ok(a.value) else Err(AncestorNotFound));
    var e := FirstWithTag(Outgoing(g, anc), Some(false));
    if e.None? then Err(NoSuchElement) else Ok(e.value.target)
  }

  /**
   * Where a continue goes: the target of the first true-tagged edge out of the
   * labelled or innermost loop; a label that names an if statement is an error.
   */
  function ContinueTarget(g: Graph, ctx: seq<Ancestor>, l: Option<string>): (r: Result<Key, ConvertError>)
    ensures r.Ok? ==> r.value in g.vertices || exists e | e in g.edges :: e.target == r.value
    ensures l.None? && NearestContinuable(g, ctx).None? ==> r == Err(AncestorNotFound)
    ensures l.Some? && LabeledAncestor(g, ctx, l.value).None? ==> r == Err(AncestorNotFound)
    ensures l.Some? && LabeledAncestor(g, ctx, l.value).Some? && LabeledAncestor(g, ctx, l.value).value.kind == IfStmt
            ==> r == Err(ContinueToLabeledIf)
    ensures r.Ok? ==>
              var anc := if l.Some? then LabeledAncestor(g, ctx, l.value).value.key else NearestContinuable(g, ctx).value;
              FirstWithTag(Outgoing(g, anc), Some(true)).Some? && FirstWithTag(Outgoing(g, anc), Some(true)).value.target == r.value
  {
    var anc :- if l.Some? then
                 (var a := LabeledAncestor(g, ctx, l.value);
                  if a.None? then Err(AncestorNotFound)
                  else if a.value.kind == IfStmt then Err(ContinueToLabeledIf)
                  else Ok(a.value.key))
               else
                 (var a := NearestContinuable(g, ctx); if a.Some? then Ok(a.value) else Err(AncestorNotFound));
    var e := FirstWithTag(Outgoing(g, anc), Some(true));
    if e.None? then Err(NoSuchElement) else Ok(e.value.target)
  }

  // Statements inside expressions

  /**
   * The expression holds a lambda whose body, reached through lambdas with
   * expression bodies, is a statement other than an expression statement.
   * The visitor walks into such a body as an ordinary statement, which has no
   * vertex.
   */
  predicate StatementLambda(e: Expr)
    decreases e, 1
  {
    match e
    case Name(_) => false
    case Lit(_, _) => false
    case FieldAccess(s, _) => StatementLambda(s)
    case MethodCall(recv, _, args) => (recv.Some? && StatementLambda(recv.value)) || StatementLambdas(args)
    case MethodRef(s, _) => StatementLambda(s)
    case Binary(_, l, r) => StatementLambda(l) || StatementLambda(r)
    case Unary(_, x) => StatementLambda(x)
    case Assign(t, _, v) => StatementLambda(t) || StatementLambda(v)
    case Cond(c, a, b) => StatementLambda(c) || StatementLambda(a) || StatementLambda(b)
    case VarDecl(ds) => StatementLambdaDecls(ds)
    case Lambda(_, body) => !body.ExprStmt? || StatementLambda(body.expr)
    case Enclosed(x) => StatementLambda(x)
    case ArrayAccess(a, i) => StatementLambda(a) || StatementLambda(i)
  }

  predicate StatementLambdas(es: seq<Expr>)
    decreases es, 0
  {
    |es| > 0 && (StatementLambda(es[0]) || StatementLambdas(es[1..]))
  }

  predicate StatementLambdaDecls(ds: seq<Declarator>)
    decreases ds, 0
  {
    |ds| > 0 && ((ds[0].init.Some? && StatementLambda(ds[0].init.value)) || StatementLambdaDecls(ds[1..]))
  }

  // The for-each rewriting

  /** How a for-each loop is rewritten: over an index for arrays and strings, over an iterator otherwise. */
  datatype Desugaring = IndexLoop(overString: bool) | IteratorLoop(elementType: string)

  function ChooseDesugaring(t: ResolvedType): (r: Result<Desugaring, ConvertError>)
    ensures (r.Ok? && r.value.IndexLoop?) <==> t.ArrayType? || (t.ReferenceType? && t.className == "String")
    ensures r.Ok? && r.value.IndexLoop? ==> (r.value.overString <==> t.ReferenceType?)
    ensures (r.Ok? && r.value.IteratorLoop?) <==>
              t.ReferenceType? && t.className != "String" && |t.typeArguments| == 1 && t.typeArguments[0].ReferenceArgument?
    ensures r.Ok? && r.value.IteratorLoop? ==> r.value.elementType == t.typeArguments[0].qualifiedName
    ensures t.Unresolved? ==> r == Err(UnsolvedType)
    ensures t.PrimitiveType? ==> r == Err(Unsupported)
    ensures t.ReferenceType? && t.className != "String" && |t.typeArguments| != 1 ==> r == Err(TypeArgumentCount(|t.typeArguments|))
    ensures t.ReferenceType? && t.className != "String" && |t.typeArguments| == 1 && t.typeArguments[0].OtherArgument?
            ==> r == Err(ArgumentNotReference)
  {
    match t
    case Unresolved => Err(UnsolvedType)
    case ArrayType => Ok(IndexLoop(false))
    case PrimitiveType => Err(Unsupported)
    case ReferenceType(name, args) =>
      if name == "String" then Ok(IndexLoop(true))
      else if |args| != 1 then Err(TypeArgumentCount(|args|))
      else if args[0].OtherArgument? then Err(ArgumentNotReference)
      else Ok(IteratorLoop(args[0].qualifiedName))
  }

  /** `T v;` */
  function LoopVarDeclText(d: Declarator): string { d.typ + " " + d.name + ";" }

  /** `int indexN = 0;` */
  function IndexInitText(n: nat): string { "int " + IndexName(n) + " = 0;" }

  /** `v = it[indexN];`, or `v = it.get(indexN);` over a string. */
  function IndexSetText(d: Declarator, iterable: string, n: nat, overString: bool): string
  {
    d.name + " = " + iterable + (if overString then ".get(" + IndexName(n) + ");" else "[" + IndexName(n) + "];")
  }

  /** `indexN++;` */
  function IndexUpdateText(n: nat): string { IndexName(n) + "++;" }

  /** `indexN < it.length`, or `indexN < it.length()` over a string. */
  function IndexTestText(iterable: string, n: nat, overString: bool): string
  {
    IndexName(n) + " < " + iterable + (if overString then ".length()" else ".length")
  }

  /** `Iterator<T> iteratorN = it.iterator();` */
  function IteratorInitText(elementType: string, iterable: string, n: nat): string
  {
    "Iterator<" + elementType + "> " + IteratorName(n) + " = " + iterable + ".iterator();"
  }

  /** `v = iteratorN.next();` */
  function IteratorSetText(d: Declarator, n: nat): string { d.name + " = " + IteratorName(n) + ".next();" }

  /** `iteratorN.hasNext()` */
  function IteratorTestText(n: nat): string { IteratorName(n) + ".hasNext()" }

  /** Decimal numerals of different numbers differ. */
  lemma {:induction false} NatToStringInjective(m: nat, n: nat)
    ensures NatToString(m) == NatToString(n) <==> m == n
  {
    if m >= 10 && n >= 10 {
      var a := NatToString(m / 10);
      var b := NatToString(n / 10);
      assert NatToString(m) == a + ['0' + (m % 10) as char];
      assert NatToString(n) == b + ['0' + (n % 10) as char];
      NatToStringInjective(m / 10, n / 10);
      if NatToString(m) == NatToString(n) {
        assert |a| == |b|;
        assert NatToString(m)[|a|] == '0' + (m % 10) as char;
        assert NatToString(n)[|b|] == '0' + (n % 10) as char;
        assert a == NatToString(m)[..|a|];
        assert b == NatToString(n)[..|b|];
      }
    } else if m >= 10 {
      assert |NatToString(m)| == |NatToString(m / 10)| + 1;
    } else if n >= 10 {
      assert |NatToString(n)| == |NatToString(n / 10)| + 1;
    }
  }

  /** Every rewritten loop gets its own variable: the counter values give the same name only when equal. */
  lemma LoopVariablesDistinct(m: nat, n: nat)
    ensures IndexName(m) == IndexName(n) <==> m == n
    ensures IteratorName(m) == IteratorName(n) <==> m == n
  {
    NatToStringInjective(m, n);
    if IndexName(m) == IndexName(n) {
      assert NatToString(m) == IndexName(m)[5..];
      assert NatToString(n) == IndexName(n)[5..];
    }
    if IteratorName(m) == IteratorName(n) {
      assert NatToString(m) == IteratorName(m)[8..];
      assert NatToString(n) == IteratorName(n)[8..];
    }
  }

  // The switch-case test

  /** `v == l1 || v == l2 ...` over the printed labels of a case. */
  function CaseTestText(varname: string, labels: seq<Expr>): string
    requires |labels| > 0
  {
    varname + " == " + PrintExpr(labels[0]) + CaseTestRest(varname, labels[1..])
  }

  function CaseTestRest(varname: string, labels: seq<Expr>): string
  {
    if |labels| == 0 then "" else " || " + varname + " == " + PrintExpr(labels[0]) + CaseTestRest(varname, labels[1..])
  }

  /** A single-label case tests one equality. */
  lemma SingleCaseTest(varname: string, l: Expr)
    ensures CaseTestText(varname, [l]) == varname + " == " + PrintExpr(l)
  {
    assert [l][1..] == [];
  }

  /** The selector text stored on each entry vertex, or Java's "null" when it is missing. */
  function SelectorText(d: VertexData): string
  {
    if "varname" in d.metadata then d.metadata["varname"] else "null"
  }
}
