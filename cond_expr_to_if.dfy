/**
 * The ternary flattener. It takes the first `?:` of a method in pre-order and
 * rewrites the nearest statement around it into an `if`/`else`, and repeats
 * until no `?:` is left:
 *  - a declaration statement in a block is split into the co-declared
 *    variables (without their initializers), a bare declaration and an
 *    assignment, and the assignment is rewritten;
 *  - a statement that is nothing but the ternary becomes an `if`/`else` of
 *    yields in a switch entry and of returns in a lambda body;
 *  - any other statement is replaced by `if (cond) S1 else S2`, where S1 and
 *    S2 are copies of it with the ternary replaced by its then and its else
 *    branch. The ternary is located in each copy as the first one with the
 *    same rendering.
 * Nodes are values here, so the in-place replacements of the original become
 * functions that return the rewritten tree.
 */
module CondExprToIf {
  import opened Wrappers
  import opened JavaAst

  /** What a search accepts: None, any ternary; Some(t), a ternary rendered as `t`. */
  type Matcher = Option<string>

  const AnyCond: Matcher := None

  /** The kind of node a statement sits in, which decides how it may be replaced. */
  datatype Parent = InBlock | InSwitchEntry | InLambda | OtherParent

  /** How a statement is rewritten: replaced in its parent, or the whole switch entry body replaced. */
  datatype Rewrite = Replace(stmts: seq<Stmt>) | ReplaceEntry(entryBody: seq<Stmt>)

  /** A declaration outside a block leaves the source without a statement to rewrite. */
  datatype ConvertError = NullPointer | FuelExhausted

  predicate Matches(e: Expr, m: Matcher)
  {
    e.Cond? && (m.None? || PrintExpr(e) == m.value)
  }

  // Whether a tree holds an accepted ternary, anywhere (lambda bodies included).

  predicate HasMatch(e: Expr, m: Matcher)
    decreases e, 1
  {
    Matches(e, m) ||
    match e
    case Name(_) => false
    case Lit(_, _) => false
    case FieldAccess(s, _) => HasMatch(s, m)
    case MethodCall(recv, _, args) => (recv.Some? && HasMatch(recv.value, m)) || HasMatchExprs(args, m)
    case MethodRef(s, _) => HasMatch(s, m)
    case Binary(_, l, r) => HasMatch(l, m) || HasMatch(r, m)
    case Unary(_, x) => HasMatch(x, m)
    case Assign(t, _, v) => HasMatch(t, m) || HasMatch(v, m)
    case Cond(c, a, b) => HasMatch(c, m) || HasMatch(a, m) || HasMatch(b, m)
    case VarDecl(ds) => HasMatchDecls(ds, m)
    case Lambda(_, body) => HasMatchStmt(body, m)
    case Enclosed(x) => HasMatch(x, m)
    case ArrayAccess(a, i) => HasMatch(a, m) || HasMatch(i, m)
  }

  predicate HasMatchExprs(es: seq<Expr>, m: Matcher)
    decreases es, 0
  {
    |es| > 0 && (HasMatch(es[0], m) || HasMatchExprs(es[1..], m))
  }

  predicate HasMatchDecls(ds: seq<Declarator>, m: Matcher)
    decreases ds, 0
  {
    |ds| > 0 && ((ds[0].init.Some? && HasMatch(ds[0].init.value, m)) || HasMatchDecls(ds[1..], m))
  }

  predicate HasMatchStmt(s: Stmt, m: Matcher)
    decreases s, 1
  {
    match s
    case ExprStmt(e) => HasMatch(e, m)
    case Block(ss) => HasMatchStmts(ss, m)
    case If(c, t, el) => HasMatch(c, m) || HasMatchStmt(t, m) || (el.Some? && HasMatchStmt(el.value, m))
    case While(c, b) => HasMatch(c, m) || HasMatchStmt(b, m)
    case Do(b, c) => HasMatchStmt(b, m) || HasMatch(c, m)
    case For(init, cmp, upd, b) =>
      HasMatchExprs(init, m) || (cmp.Some? && HasMatch(cmp.value, m)) || HasMatchExprs(upd, m) || HasMatchStmt(b, m)
    case ForEach(v, it, b) => (v.init.Some? && HasMatch(v.init.value, m)) || HasMatch(it, m) || HasMatchStmt(b, m)
    case Switch(sel, es) => HasMatch(sel, m) || HasMatchEntries(es, m)
    case Break(_) => false
    case Continue(_) => false
    case Return(e) => e.Some? && HasMatch(e.value, m)
    case Yield(e) => HasMatch(e, m)
    case Throw(e) => HasMatch(e, m)
    case Try(b, cs, f) => HasMatchStmts(b, m) || HasMatchCatches(cs, m) || (f.Some? && HasMatchStmt(f.value, m))
    case Labeled(_, x) => HasMatchStmt(x, m)
    case Empty => false
  }

  predicate HasMatchStmts(ss: seq<Stmt>, m: Matcher)
    decreases ss, 0
  {
    |ss| > 0 && (HasMatchStmt(ss[0], m) || HasMatchStmts(ss[1..], m))
  }

  predicate HasMatchEntries(es: seq<SwitchEntry>, m: Matcher)
    decreases es, 0
  {
    |es| > 0 && (HasMatchExprs(es[0].labels, m) || HasMatchStmts(es[0].body, m) || HasMatchEntries(es[1..], m))
  }

  predicate HasMatchCatches(cs: seq<CatchClause>, m: Matcher)
    decreases cs, 0
  {
    |cs| > 0 && (HasMatchStmts(cs[0].handler, m) || HasMatchCatches(cs[1..], m))
  }

  // The first accepted ternary in pre-order.

  function FirstMatch(e: Expr, m: Matcher): (r: Option<Expr>)
    ensures r.Some? <==> HasMatch(e, m)
    ensures r.Some? ==> Matches(r.value, m)
    decreases e, 1
  {
    if Matches(e, m) then Some(e)
    else match e
      case Name(_) => None
      case Lit(_, _) => None
      case FieldAccess(s, _) => FirstMatch(s, m)
      case MethodCall(recv, _, args) =>
        if recv.Some? && HasMatch(recv.value, m) then FirstMatch(recv.value, m) else FirstMatchExprs(args, m)
      case MethodRef(s, _) => FirstMatch(s, m)
      case Binary(_, l, r) => if HasMatch(l, m) then FirstMatch(l, m) else FirstMatch(r, m)
      case Unary(_, x) => FirstMatch(x, m)
      case Assign(t, _, v) => if HasMatch(t, m) then FirstMatch(t, m) else FirstMatch(v, m)
      case Cond(c, a, b) =>
        if HasMatch(c, m) then FirstMatch(c, m) else if HasMatch(a, m) then FirstMatch(a, m) else FirstMatch(b, m)
      case VarDecl(ds) => FirstMatchDecls(ds, m)
      case Lambda(_, body) => FirstMatchStmt(body, m)
      case Enclosed(x) => FirstMatch(x, m)
      case ArrayAccess(a, i) => if HasMatch(a, m) then FirstMatch(a, m) else FirstMatch(i, m)
  }

  function FirstMatchExprs(es: seq<Expr>, m: Matcher): (r: Option<Expr>)
    ensures r.Some? <==> HasMatchExprs(es, m)
    ensures r.Some? ==> Matches(r.value, m)
    decreases es, 0
  {
    if |es| == 0 then None
    else if HasMatch(es[0], m) then FirstMatch(es[0], m)
    else FirstMatchExprs(es[1..], m)
  }

  function FirstMatchDecls(ds: seq<Declarator>, m: Matcher): (r: Option<Expr>)
    ensures r.Some? <==> HasMatchDecls(ds, m)
    ensures r.Some? ==> Matches(r.value, m)
    decreases ds, 0
  {
    if |ds| == 0 then None
    else if ds[0].init.Some? && HasMatch(ds[0].init.value, m) then FirstMatch(ds[0].init.value, m)
    else FirstMatchDecls(ds[1..], m)
  }

  function FirstMatchStmt(s: Stmt, m: Matcher): (r: Option<Expr>)
    ensures r.Some? <==> HasMatchStmt(s, m)
    ensures r.Some? ==> Matches(r.value, m)
    decreases s, 1
  {
    match s
    case ExprStmt(e) => FirstMatch(e, m)
    case Block(ss) => FirstMatchStmts(ss, m)
    case If(c, t, el) =>
      if HasMatch(c, m) then FirstMatch(c, m)
      else if HasMatchStmt(t, m) then FirstMatchStmt(t, m)
      else if el.Some? then FirstMatchStmt(el.value, m) else None
    case While(c, b) => if HasMatch(c, m) then FirstMatch(c, m) else FirstMatchStmt(b, m)
    case Do(b, c) => if HasMatchStmt(b, m) then FirstMatchStmt(b, m) else FirstMatch(c, m)
    case For(init, cmp, upd, b) =>
      if HasMatchExprs(init, m) then FirstMatchExprs(init, m)
      else if cmp.Some? && HasMatch(cmp.value, m) then FirstMatch(cmp.value, m)
      else if HasMatchExprs(upd, m) then FirstMatchExprs(upd, m)
      else FirstMatchStmt(b, m)
    case ForEach(v, it, b) =>
      if v.init.Some? && HasMatch(v.init.value, m) then FirstMatch(v.init.value, m)
      else if HasMatch(it, m) then FirstMatch(it, m)
      else FirstMatchStmt(b, m)
    case Switch(sel, es) => if HasMatch(sel, m) then FirstMatch(sel, m) else FirstMatchEntries(es, m)
    case Break(_) => None
    case Continue(_) => None
    case Return(e) => if e.Some? then FirstMatch(e.value, m) else None
    case Yield(e) => FirstMatch(e, m)
    case Throw(e) => FirstMatch(e, m)
    case Try(b, cs, f) =>
      if HasMatchStmts(b, m) then FirstMatchStmts(b, m)
      else if HasMatchCatches(cs, m) then FirstMatchCatches(cs, m)
      else if f.Some? then FirstMatchStmt(f.value, m) else None
    case Labeled(_, x) => FirstMatchStmt(x, m)
    case Empty => None
  }

  function FirstMatchStmts(ss: seq<Stmt>, m: Matcher): (r: Option<Expr>)
    ensures r.Some? <==> HasMatchStmts(ss, m)
    ensures r.Some? ==> Matches(r.value, m)
    decreases ss, 0
  {
    if |ss| == 0 then None
    else if HasMatchStmt(ss[0], m) then FirstMatchStmt(ss[0], m)
    else FirstMatchStmts(ss[1..], m)
  }

  function FirstMatchEntries(es: seq<SwitchEntry>, m: Matcher): (r: Option<Expr>)
    ensures r.Some? <==> HasMatchEntries(es, m)
    ensures r.Some? ==> Matches(r.value, m)
    decreases es, 0
  {
    if |es| == 0 then None
    else if HasMatchExprs(es[0].labels, m) then FirstMatchExprs(es[0].labels, m)
    else if HasMatchStmts(es[0].body, m) then FirstMatchStmts(es[0].body, m)
    else FirstMatchEntries(es[1..], m)
  }

  function FirstMatchCatches(cs: seq<CatchClause>, m: Matcher): (r: Option<Expr>)
    ensures r.Some? <==> HasMatchCatches(cs, m)
    ensures r.Some? ==> Matches(r.value, m)
    decreases cs, 0
  {
    if |cs| == 0 then None
    else if HasMatchStmts(cs[0].handler, m) then FirstMatchStmts(cs[0].handler, m)
    else FirstMatchCatches(cs[1..], m)
  }

  // The first accepted ternary replaced by its then (`useThen`) or else branch; nothing else changes.

  function ReplaceExpr(e: Expr, m: Matcher, useThen: bool): Expr
    decreases e, 1
  {
    if Matches(e, m) then (if useThen then e.thenExpr else e.elseExpr)
    else match e
      case Name(_) => e
      case Lit(_, _) => e
      case FieldAccess(s, f) => FieldAccess(ReplaceExpr(s, m, useThen), f)
      case MethodCall(recv, n, args) =>
        if recv.Some? && HasMatch(recv.value, m) then MethodCall(Some(ReplaceExpr(recv.value, m, useThen)), n, args)
        else MethodCall(recv, n, ReplaceExprs(args, m, useThen))
      case MethodRef(s, ident) => MethodRef(ReplaceExpr(s, m, useThen), ident)
      case Binary(op, l, r) =>
        if HasMatch(l, m) then Binary(op, ReplaceExpr(l, m, useThen), r) else Binary(op, l, ReplaceExpr(r, m, useThen))
      case Unary(op, x) => Unary(op, ReplaceExpr(x, m, useThen))
      case Assign(t, op, v) =>
        if HasMatch(t, m) then Assign(ReplaceExpr(t, m, useThen), op, v) else Assign(t, op, ReplaceExpr(v, m, useThen))
      case Cond(c, a, b) =>
        if HasMatch(c, m) then Cond(ReplaceExpr(c, m, useThen), a, b)
        else if HasMatch(a, m) then Cond(c, ReplaceExpr(a, m, useThen), b)
        else Cond(c, a, ReplaceExpr(b, m, useThen))
      case VarDecl(ds) => VarDecl(ReplaceDecls(ds, m, useThen))
      case Lambda(ps, body) => Lambda(ps, ReplaceStmt(body, m, useThen))
      case Enclosed(x) => Enclosed(ReplaceExpr(x, m, useThen))
      case ArrayAccess(a, i) =>
        if HasMatch(a, m) then ArrayAccess(ReplaceExpr(a, m, useThen), i) else ArrayAccess(a, ReplaceExpr(i, m, useThen))
  }

  function ReplaceExprs(es: seq<Expr>, m: Matcher, useThen: bool): seq<Expr>
    decreases es, 0
  {
    if |es| == 0 then es
    else if HasMatch(es[0], m) then [ReplaceExpr(es[0], m, useThen)] + es[1..]
    else [es[0]] + ReplaceExprs(es[1..], m, useThen)
  }

  function ReplaceDecls(ds: seq<Declarator>, m: Matcher, useThen: bool): seq<Declarator>
    decreases ds, 0
  {
    if |ds| == 0 then ds
    else if ds[0].init.Some? && HasMatch(ds[0].init.value, m) then
      [Declarator(ds[0].typ, ds[0].name, Some(ReplaceExpr(ds[0].init.value, m, useThen)))] + ds[1..]
    else [ds[0]] + ReplaceDecls(ds[1..], m, useThen)
  }

  function ReplaceStmt(s: Stmt, m: Matcher, useThen: bool): Stmt
    decreases s, 1
  {
    match s
    case ExprStmt(e) => ExprStmt(ReplaceExpr(e, m, useThen))
    case Block(ss) => Block(ReplaceStmts(ss, m, useThen))
    case If(c, t, el) =>
      if HasMatch(c, m) then If(ReplaceExpr(c, m, useThen), t, el)
      else if HasMatchStmt(t, m) then If(c, ReplaceStmt(t, m, useThen), el)
      else if el.Some? then If(c, t, Some(ReplaceStmt(el.value, m, useThen))) else s
    case While(c, b) => if HasMatch(c, m) then While(ReplaceExpr(c, m, useThen), b) else While(c, ReplaceStmt(b, m, useThen))
    case Do(b, c) => if HasMatchStmt(b, m) then Do(ReplaceStmt(b, m, useThen), c) else Do(b, ReplaceExpr(c, m, useThen))
    case For(init, cmp, upd, b) =>
      if HasMatchExprs(init, m) then For(ReplaceExprs(init, m, useThen), cmp, upd, b)
      else if cmp.Some? && HasMatch(cmp.value, m) then For(init, Some(ReplaceExpr(cmp.value, m, useThen)), upd, b)
      else if HasMatchExprs(upd, m) then For(init, cmp, ReplaceExprs(upd, m, useThen), b)
      else For(init, cmp, upd, ReplaceStmt(b, m, useThen))
    case ForEach(v, it, b) =>
      if v.init.Some? && HasMatch(v.init.value, m) then
        ForEach(Declarator(v.typ, v.name, Some(ReplaceExpr(v.init.value, m, useThen))), it, b)
      else if HasMatch(it, m) then ForEach(v, ReplaceExpr(it, m, useThen), b)
      else ForEach(v, it, ReplaceStmt(b, m, useThen))
    case Switch(sel, es) =>
      if HasMatch(sel, m) then Switch(ReplaceExpr(sel, m, useThen), es) else Switch(sel, ReplaceEntries(es, m, useThen))
    case Break(_) => s
    case Continue(_) => s
    case Return(e) => if e.Some? then Return(Some(ReplaceExpr(e.value, m, useThen))) else s
    case Yield(e) => Yield(ReplaceExpr(e, m, useThen))
    case Throw(e) => Throw(ReplaceExpr(e, m, useThen))
    case Try(b, cs, f) =>
      if HasMatchStmts(b, m) then Try(ReplaceStmts(b, m, useThen), cs, f)
      else if HasMatchCatches(cs, m) then Try(b, ReplaceCatches(cs, m, useThen), f)
      else if f.Some? then Try(b, cs, Some(ReplaceStmt(f.value, m, useThen))) else s
    case Labeled(l, x) => Labeled(l, ReplaceStmt(x, m, useThen))
    case Empty => s
  }

  function ReplaceStmts(ss: seq<Stmt>, m: Matcher, useThen: bool): seq<Stmt>
    decreases ss, 0
  {
    if |ss| == 0 then ss
    else if HasMatchStmt(ss[0], m) then [ReplaceStmt(ss[0], m, useThen)] + ss[1..]
    else [ss[0]] + ReplaceStmts(ss[1..], m, useThen)
  }

  function ReplaceEntries(es: seq<SwitchEntry>, m: Matcher, useThen: bool): seq<SwitchEntry>
    decreases es, 0
  {
    if |es| == 0 then es
    else if HasMatchExprs(es[0].labels, m) then [SwitchEntry(ReplaceExprs(es[0].labels, m, useThen), es[0].body)] + es[1..]
    else if HasMatchStmts(es[0].body, m) then [SwitchEntry(es[0].labels, ReplaceStmts(es[0].body, m, useThen))] + es[1..]
    else [es[0]] + ReplaceEntries(es[1..], m, useThen)
  }

  function ReplaceCatches(cs: seq<CatchClause>, m: Matcher, useThen: bool): seq<CatchClause>
    decreases cs, 0
  {
    if |cs| == 0 then cs
    else if HasMatchStmts(cs[0].handler, m) then
      [CatchClause(cs[0].types, cs[0].name, ReplaceStmts(cs[0].handler, m, useThen))] + cs[1..]
    else [cs[0]] + ReplaceCatches(cs[1..], m, useThen)
  }

  // Whether the first ternary of an expression lies outside every lambda body in it,
  // so that its nearest enclosing statement is the one holding the expression.

  predicate Owned(e: Expr)
    requires HasMatch(e, AnyCond)
    decreases e, 1
  {
    match e
    case Name(_) => false
    case Lit(_, _) => false
    case FieldAccess(s, _) => Owned(s)
    case MethodCall(recv, _, args) =>
      if recv.Some? && HasMatch(recv.value, AnyCond) then Owned(recv.value) else OwnedExprs(args)
    case MethodRef(s, _) => Owned(s)
    case Binary(_, l, r) => if HasMatch(l, AnyCond) then Owned(l) else Owned(r)
    case Unary(_, x) => Owned(x)
    case Assign(t, _, v) => if HasMatch(t, AnyCond) then Owned(t) else Owned(v)
    case Cond(_, _, _) => true
    case VarDecl(ds) => OwnedDecls(ds)
    case Lambda(_, _) => false
    case Enclosed(x) => Owned(x)
    case ArrayAccess(a, i) => if HasMatch(a, AnyCond) then Owned(a) else Owned(i)
  }

  predicate OwnedExprs(es: seq<Expr>)
    requires HasMatchExprs(es, AnyCond)
    decreases es, 0
  {
    if HasMatch(es[0], AnyCond) then Owned(es[0]) else OwnedExprs(es[1..])
  }

  predicate OwnedDecls(ds: seq<Declarator>)
    requires HasMatchDecls(ds, AnyCond)
    decreases ds, 0
  {
    if ds[0].init.Some? && HasMatch(ds[0].init.value, AnyCond) then Owned(ds[0].init.value) else OwnedDecls(ds[1..])
  }

  predicate OwnedEntries(es: seq<SwitchEntry>)
    requires HasMatchEntries(es, AnyCond)
    decreases es, 0
  {
    if HasMatchExprs(es[0].labels, AnyCond) then OwnedExprs(es[0].labels)
    else if HasMatchStmts(es[0].body, AnyCond) then false
    else OwnedEntries(es[1..])
  }

  /** `s` is the nearest statement around its own first ternary. */
  predicate OwnsFirst(s: Stmt)
    requires HasMatchStmt(s, AnyCond)
  {
    match s
    case ExprStmt(e) => Owned(e)
    case If(c, _, _) => HasMatch(c, AnyCond) && Owned(c)
    case While(c, _) => HasMatch(c, AnyCond) && Owned(c)
    case Do(b, c) => !HasMatchStmt(b, AnyCond) && Owned(c)
    case For(init, cmp, upd, _) =>
      if HasMatchExprs(init, AnyCond) then OwnedExprs(init)
      else if cmp.Some? && HasMatch(cmp.value, AnyCond) then Owned(cmp.value)
      else HasMatchExprs(upd, AnyCond) && OwnedExprs(upd)
    case ForEach(v, it, _) =>
      if v.init.Some? && HasMatch(v.init.value, AnyCond) then Owned(v.init.value)
      else HasMatch(it, AnyCond) && Owned(it)
    case Switch(sel, es) => if HasMatch(sel, AnyCond) then Owned(sel) else OwnedEntries(es)
    case Return(e) => Owned(e.value)
    case Yield(e) => Owned(e)
    case Throw(e) => Owned(e)
    case _ => false
  }

  // The rewrites of the statement that owns the first ternary.

  /** `if (c.cond) S1 else S2`, with S1 and S2 copies of `s` whose first ternary rendered like `c` is replaced. */
  function CondAsIfElse(c: Expr, s: Stmt): Stmt
    requires c.Cond?
  {
    var text := Some(PrintExpr(c));
    If(c.cond, ReplaceStmt(s, text, true), Some(ReplaceStmt(s, text, false)))
  }

  /** Index of the declarator whose initializer holds the first ternary. */
  function FirstDeclIndex(ds: seq<Declarator>): (j: nat)
    requires HasMatchDecls(ds, AnyCond)
    ensures j < |ds| && ds[j].init.Some? && HasMatch(ds[j].init.value, AnyCond)
    ensures forall i :: 0 <= i < j ==> !(ds[i].init.Some? && HasMatch(ds[i].init.value, AnyCond))
  {
    if ds[0].init.Some? && HasMatch(ds[0].init.value, AnyCond) then 0 else 1 + FirstDeclIndex(ds[1..])
  }

  /** The declarators other than the `j`-th, in order, without their initializers. */
  function CoDeclared(ds: seq<Declarator>, j: nat): (r: seq<Declarator>)
    requires j < |ds|
    ensures |r| == |ds| - 1
    ensures forall i :: 0 <= i < j ==> r[i] == Declarator(ds[i].typ, ds[i].name, None)
    ensures forall i :: j <= i < |r| ==> r[i] == Declarator(ds[i + 1].typ, ds[i + 1].name, None)
  {
    var others := ds[..j] + ds[j + 1..];
    seq(|others|, i requires 0 <= i < |others| => Declarator(others[i].typ, others[i].name, None))
  }

  /**
   * The statements a declaration holding the first ternary `c` becomes in a
   * block: the co-declared variables if there are any, the bare declaration
   * of the variable whose initializer holds `c`, and the assignment of that
   * initializer rewritten as an `if`/`else`.
   */
  function ExtractConditionalDeclaration(ds: seq<Declarator>, c: Expr): (r: seq<Stmt>)
    requires HasMatchDecls(ds, AnyCond) && c.Cond?
    ensures |r| == if |ds| > 1 then 3 else 2
    ensures var d := ds[FirstDeclIndex(ds)];
            && r[|r| - 2] == ExprStmt(VarDecl([Declarator(d.typ, d.name, None)]))
            && r[|r| - 1] == CondAsIfElse(c, ExprStmt(Assign(Name(d.name), None, d.init.value)))
    ensures |ds| > 1 ==> r[0] == ExprStmt(VarDecl(CoDeclared(ds, FirstDeclIndex(ds))))
  {
    var j := FirstDeclIndex(ds);
    var d := ds[j];
    var irrelevant := CoDeclared(ds, j);
    var declaration := ExprStmt(VarDecl([Declarator(d.typ, d.name, None)]));
    var assignment := ExprStmt(Assign(Name(d.name), None, d.init.value));
    (if |irrelevant| > 0 then [ExprStmt(VarDecl(irrelevant))] else []) + [declaration, CondAsIfElse(c, assignment)]
  }

  /** A statement that is the ternary alone, under a switch entry or a lambda. */
  function RewriteSwitchOrLambda(e: Expr, parent: Parent): (r: Rewrite)
    requires e.Cond? && (parent == InSwitchEntry || parent == InLambda)
    ensures parent == InSwitchEntry ==> r.ReplaceEntry? && |r.entryBody| == 1
    ensures parent == InLambda ==> r.Replace? && |r.stmts| == 1
  {
    if parent == InSwitchEntry then
      ReplaceEntry([Block([If(e.cond, Yield(e.thenExpr), Some(Yield(e.elseExpr)))])])
    else
      Replace([Block([If(e.cond, Return(Some(e.thenExpr)), Some(Return(Some(e.elseExpr))))])])
  }

  function OwnedStep(s: Stmt, parent: Parent): (r: Result<Rewrite, ConvertError>)
    requires HasMatchStmt(s, AnyCond)
    ensures r.Ok? && r.value.ReplaceEntry? ==> parent == InSwitchEntry
    ensures r.Ok? && r.value.Replace? ==> |r.value.stmts| >= 1
    ensures r.Ok? && r.value.Replace? && parent != InBlock ==> |r.value.stmts| == 1
  {
    var c := FirstMatchStmt(s, AnyCond).value;
    if s.ExprStmt? && s.expr.VarDecl? then
      if parent == InBlock then Ok(Replace(ExtractConditionalDeclaration(s.expr.vars, c))) else Err(NullPointer)
    else if s.ExprStmt? && s.expr.Cond? && (parent == InSwitchEntry || parent == InLambda) then
      Ok(RewriteSwitchOrLambda(s.expr, parent))
    else Ok(Replace([CondAsIfElse(c, s)]))
  }

  // One rewrite: descend to the statement that owns the first ternary.

  function SingleStmt(r: Rewrite): Stmt
    requires r.Replace? && |r.stmts| == 1
  {
    r.stmts[0]
  }

  function NewBody(r: Rewrite): seq<Stmt>
  {
    if r.Replace? then r.stmts else r.entryBody
  }

  function StepExpr(e: Expr): (r: Result<Expr, ConvertError>)
    requires HasMatch(e, AnyCond) && !Owned(e)
    decreases e, 1
  {
    match e
    case FieldAccess(s, f) => var s' :- StepExpr(s); Ok(FieldAccess(s', f))
    case MethodCall(recv, n, args) =>
      if recv.Some? && HasMatch(recv.value, AnyCond) then
        var x :- StepExpr(recv.value); Ok(MethodCall(Some(x), n, args))
      else
        var xs :- StepExprs(args); Ok(MethodCall(recv, n, xs))
    case MethodRef(s, ident) => var s' :- StepExpr(s); Ok(MethodRef(s', ident))
    case Binary(op, l, r) =>
      if HasMatch(l, AnyCond) then var x :- StepExpr(l); Ok(Binary(op, x, r))
      else var x :- StepExpr(r); Ok(Binary(op, l, x))
    case Unary(op, x) => var y :- StepExpr(x); Ok(Unary(op, y))
    case Assign(t, op, v) =>
      if HasMatch(t, AnyCond) then var x :- StepExpr(t); Ok(Assign(x, op, v))
      else var x :- StepExpr(v); Ok(Assign(t, op, x))
    case VarDecl(ds) => var xs :- StepDecls(ds); Ok(VarDecl(xs))
    case Lambda(ps, body) => var r :- StepStmt(body, InLambda); Ok(Lambda(ps, SingleStmt(r)))
    case Enclosed(x) => var y :- StepExpr(x); Ok(Enclosed(y))
    case ArrayAccess(a, i) =>
      if HasMatch(a, AnyCond) then var x :- StepExpr(a); Ok(ArrayAccess(x, i))
      else var x :- StepExpr(i); Ok(ArrayAccess(a, x))
  }

  function StepExprs(es: seq<Expr>): (r: Result<seq<Expr>, ConvertError>)
    requires HasMatchExprs(es, AnyCond) && !OwnedExprs(es)
    decreases es, 0
  {
    if HasMatch(es[0], AnyCond) then var x :- StepExpr(es[0]); Ok([x] + es[1..])
    else var xs :- StepExprs(es[1..]); Ok([es[0]] + xs)
  }

  function StepDecls(ds: seq<Declarator>): (r: Result<seq<Declarator>, ConvertError>)
    requires HasMatchDecls(ds, AnyCond) && !OwnedDecls(ds)
    decreases ds, 0
  {
    if ds[0].init.Some? && HasMatch(ds[0].init.value, AnyCond) then
      var x :- StepExpr(ds[0].init.value); Ok([Declarator(ds[0].typ, ds[0].name, Some(x))] + ds[1..])
    else var xs :- StepDecls(ds[1..]); Ok([ds[0]] + xs)
  }

  /** Rewrite the first ternary of `s`, a statement whose parent is of kind `parent`. */
  function StepStmt(s: Stmt, parent: Parent): (r: Result<Rewrite, ConvertError>)
    requires HasMatchStmt(s, AnyCond)
    ensures r.Ok? && r.value.ReplaceEntry? ==> parent == InSwitchEntry
    ensures r.Ok? && r.value.Replace? ==> |r.value.stmts| >= 1
    ensures r.Ok? && r.value.Replace? && parent != InBlock ==> |r.value.stmts| == 1
    decreases s, 2
  {
    if OwnsFirst(s) then OwnedStep(s, parent) else StepNested(s)
  }

  /** `s` does not own its first ternary: it is in a nested statement or a lambda body. */
  function StepNested(s: Stmt): (r: Result<Rewrite, ConvertError>)
    requires HasMatchStmt(s, AnyCond) && !OwnsFirst(s)
    ensures r.Ok? ==> r.value.Replace? && |r.value.stmts| == 1
    decreases s, 1
  {
    match s
    case ExprStmt(e) => var x :- StepExpr(e); Ok(Replace([ExprStmt(x)]))
    case Block(ss) => var r :- StepStmts(ss, InBlock); Ok(Replace([Block(r.stmts)]))
    case If(c, t, el) =>
      if HasMatch(c, AnyCond) then var x :- StepExpr(c); Ok(Replace([If(x, t, el)]))
      else if HasMatchStmt(t, AnyCond) then var r :- StepStmt(t, OtherParent); Ok(Replace([If(c, SingleStmt(r), el)]))
      else var r :- StepStmt(el.value, OtherParent); Ok(Replace([If(c, t, Some(SingleStmt(r)))]))
    case While(_, _) => StepNestedLoop(s)
    case Do(_, _) => StepNestedLoop(s)
    case For(_, _, _, _) => StepNestedLoop(s)
    case ForEach(_, _, _) => StepNestedLoop(s)
    case Switch(sel, es) =>
      if HasMatch(sel, AnyCond) then var x :- StepExpr(sel); Ok(Replace([Switch(x, es)]))
      else var xs :- StepEntries(es); Ok(Replace([Switch(sel, xs)]))
    case Return(e) => var x :- StepExpr(e.value); Ok(Replace([Return(Some(x))]))
    case Yield(e) => var x :- StepExpr(e); Ok(Replace([Yield(x)]))
    case Throw(e) => var x :- StepExpr(e); Ok(Replace([Throw(x)]))
    case Try(b, cs, f) =>
      if HasMatchStmts(b, AnyCond) then var r :- StepStmts(b, InBlock); Ok(Replace([Try(r.stmts, cs, f)]))
      else if HasMatchCatches(cs, AnyCond) then var xs :- StepCatches(cs); Ok(Replace([Try(b, xs, f)]))
      else var r :- StepStmt(f.value, OtherParent); Ok(Replace([Try(b, cs, Some(SingleStmt(r)))]))
    case Labeled(l, x) => var r :- StepStmt(x, OtherParent); Ok(Replace([Labeled(l, SingleStmt(r))]))
  }

  /** `StepNested` for the loops. */
  function StepNestedLoop(s: Stmt): (r: Result<Rewrite, ConvertError>)
    requires s.While? || s.Do? || s.For? || s.ForEach?
    requires HasMatchStmt(s, AnyCond) && !OwnsFirst(s)
    ensures r.Ok? ==> r.value.Replace? && |r.value.stmts| == 1
    decreases s, 0
  {
    match s
    case While(c, b) =>
      if HasMatch(c, AnyCond) then var x :- StepExpr(c); Ok(Replace([While(x, b)]))
      else var r :- StepStmt(b, OtherParent); Ok(Replace([While(c, SingleStmt(r))]))
    case Do(b, c) =>
      if HasMatchStmt(b, AnyCond) then var r :- StepStmt(b, OtherParent); Ok(Replace([Do(SingleStmt(r), c)]))
      else var x :- StepExpr(c); Ok(Replace([Do(b, x)]))
    case For(init, cmp, upd, b) =>
      if HasMatchExprs(init, AnyCond) then var xs :- StepExprs(init); Ok(Replace([For(xs, cmp, upd, b)]))
      else if cmp.Some? && HasMatch(cmp.value, AnyCond) then
        var x :- StepExpr(cmp.value); Ok(Replace([For(init, Some(x), upd, b)]))
      else if HasMatchExprs(upd, AnyCond) then var xs :- StepExprs(upd); Ok(Replace([For(init, cmp, xs, b)]))
      else var r :- StepStmt(b, OtherParent); Ok(Replace([For(init, cmp, upd, SingleStmt(r))]))
    case ForEach(v, it, b) =>
      if v.init.Some? && HasMatch(v.init.value, AnyCond) then
        var x :- StepExpr(v.init.value); Ok(Replace([ForEach(Declarator(v.typ, v.name, Some(x)), it, b)]))
      else if HasMatch(it, AnyCond) then var x :- StepExpr(it); Ok(Replace([ForEach(v, x, b)]))
      else var r :- StepStmt(b, OtherParent); Ok(Replace([ForEach(v, it, SingleStmt(r))]))
  }

  /** Index of the first statement of `ss` holding a ternary. */
  function FirstStmtIndex(ss: seq<Stmt>): (i: nat)
    requires HasMatchStmts(ss, AnyCond)
    ensures i < |ss| && HasMatchStmt(ss[i], AnyCond)
    ensures forall k :: 0 <= k < i ==> !HasMatchStmt(ss[k], AnyCond)
  {
    if HasMatchStmt(ss[0], AnyCond) then 0 else 1 + FirstStmtIndex(ss[1..])
  }

  /**
   * Rewrite the first ternary of a statement list whose statements sit in a
   * node of kind `kind`. Only the first statement holding a ternary is
   * replaced; the ones before and after it are kept in order.
   */
  function StepStmts(ss: seq<Stmt>, kind: Parent): (r: Result<Rewrite, ConvertError>)
    requires HasMatchStmts(ss, AnyCond)
    ensures r.Ok? && r.value.ReplaceEntry? ==> kind == InSwitchEntry
    ensures r.Ok? && r.value.Replace? ==>
              var i := FirstStmtIndex(ss);
              var n := |r.value.stmts|;
              && n >= |ss|
              && r.value.stmts[..i] == ss[..i]
              && r.value.stmts[n - (|ss| - 1 - i)..] == ss[i + 1..]
    decreases ss, 0
  {
    if HasMatchStmt(ss[0], AnyCond) then
      var r :- StepStmt(ss[0], kind);
      Ok(if r.Replace? then Replace(r.stmts + ss[1..]) else r)
    else
      var r :- StepStmts(ss[1..], kind);
      Ok(if r.Replace? then Replace([ss[0]] + r.stmts) else r)
  }

  function StepEntries(es: seq<SwitchEntry>): (r: Result<seq<SwitchEntry>, ConvertError>)
    requires HasMatchEntries(es, AnyCond) && !OwnedEntries(es)
    decreases es, 0
  {
    if HasMatchExprs(es[0].labels, AnyCond) then
      var xs :- StepExprs(es[0].labels); Ok([SwitchEntry(xs, es[0].body)] + es[1..])
    else if HasMatchStmts(es[0].body, AnyCond) then
      var r :- StepStmts(es[0].body, InSwitchEntry); Ok([SwitchEntry(es[0].labels, NewBody(r))] + es[1..])
    else
      var xs :- StepEntries(es[1..]); Ok([es[0]] + xs)
  }

  function StepCatches(cs: seq<CatchClause>): (r: Result<seq<CatchClause>, ConvertError>)
    requires HasMatchCatches(cs, AnyCond)
    decreases cs, 0
  {
    if HasMatchStmts(cs[0].handler, AnyCond) then
      var r :- StepStmts(cs[0].handler, InBlock); Ok([CatchClause(cs[0].types, cs[0].name, r.stmts)] + cs[1..])
    else
      var xs :- StepCatches(cs[1..]); Ok([cs[0]] + xs)
  }

  // The method-level loop.

  /** The method body holds a ternary. */
  predicate HasCond(m: Method)
  {
    m.body.Some? && HasMatchStmts(m.body.value, AnyCond)
  }

  /** One rewrite of the first ternary of a method. */
  function StepMethod(m: Method): (r: Result<Method, ConvertError>)
    requires HasCond(m)
    ensures r.Ok? ==> r.value.name == m.name && r.value.params == m.params && r.value.body.Some?
  {
    var r :- StepStmts(m.body.value, InBlock);
    Ok(Method(m.name, m.params, Some(r.stmts)))
  }

  /**
   * Rewrites until no ternary is left, at most `fuel` times. The source loops
   * without a bound; `FuelExhausted` stands for running out of the bound.
   */
  function RewriteAll(m: Method, fuel: nat): (r: Result<Method, ConvertError>)
    ensures r.Ok? ==> !HasCond(r.value)
    ensures r.Ok? ==> r.value.name == m.name && r.value.params == m.params
    ensures r.Ok? && m.body.None? ==> r.value == m
    ensures !HasCond(m) ==> r == Ok(m)
    decreases fuel
  {
    if !HasCond(m) then Ok(m)
    else if fuel == 0 then Err(FuelExhausted)
    else
      var next :- StepMethod(m);
      RewriteAll(next, fuel - 1)
  }

  /** The rewriting loop: one step at a time while a ternary is left, at most `fuel` steps. */
  method RewriteLoop(m: Method, fuel: nat) returns (r: Result<Method, ConvertError>)
    ensures r == RewriteAll(m, fuel)
  {
    var current := m;
    var left := fuel;
    while HasCond(current)
      invariant RewriteAll(current, left) == RewriteAll(m, fuel)
      decreases left
    {
      if left == 0 {
        return Err(FuelExhausted);
      }
      var next := StepMethod(current);
      if next.Err? {
        return Err(next.error);
      }
      current := next.value;
      left := left - 1;
    }
    return Ok(current);
  }

  /**
   * The count of methods that held a ternary. It is a static field of the
   * converter class: created once, at zero, and shared by every converter.
   */
  class MethodCounter {
    var count: nat

    constructor()
      ensures count == 0
    {
      count := 0;
    }
  }

  class CondExprToIfConverter {
    /** The shared count; a new converter neither resets nor replaces it. */
    const numberOfMethodsWithCondExpr: MethodCounter

    constructor(shared: MethodCounter)
      ensures numberOfMethodsWithCondExpr == shared
    {
      numberOfMethodsWithCondExpr := shared;
    }

    /**
     * Rewrites every ternary of `m`. The shared count rises by one exactly
     * when `m` held a ternary; on success none is left.
     */
    method RewriteAllCondExprsToIf(m: Method, fuel: nat) returns (r: Result<Method, ConvertError>)
      modifies numberOfMethodsWithCondExpr
      ensures r == RewriteAll(m, fuel)
      ensures numberOfMethodsWithCondExpr.count == old(numberOfMethodsWithCondExpr.count) + (if HasCond(m) then 1 else 0)
    {
      if HasCond(m) {
        numberOfMethodsWithCondExpr.count := numberOfMethodsWithCondExpr.count + 1;
      }
      r := RewriteLoop(m, fuel);
    }
  }
}
