/**
 * A small Java syntax tree, standing in for the JavaParser nodes that the
 * canonicalizers, the ternary flattener, the tagger and the flow-graph
 * builder work on, together with a one-line rendering of it that stands in
 * for JavaParser's `toString`. Type names are carried as text.
 */
module JavaAst {
  import opened Wrappers

  datatype LitKind = BoolLit | CharLit | DoubleLit | IntLit | LongLit | StringLit | TextBlockLit | NullLit

  datatype BinOp =
    | OrOp | AndOp | BitOrOp | XorOp | BitAndOp | EqualsOp | NotEqualsOp
    | LessOp | GreaterOp | LessEqOp | GreaterEqOp | LeftShiftOp | RightShiftOp | UnsignedRightShiftOp
    | PlusOp | MinusOp | TimesOp | DivideOp | RemainderOp

  datatype UnOp = Negate | Positive | Not | Complement | PreIncrement | PreDecrement | PostIncrement | PostDecrement

  /** A formal parameter of a method or lambda; `typ` is empty for an inferred lambda parameter. */
  datatype Param = Param(typ: string, name: string)

  datatype Expr =
    | Name(id: string)
    | Lit(kind: LitKind, text: string)
    | FieldAccess(scope: Expr, field: string)
    | MethodCall(receiver: Option<Expr>, methodName: string, args: seq<Expr>)
    | MethodRef(scope: Expr, ident: string)
    | Binary(op: BinOp, left: Expr, right: Expr)
    | Unary(uop: UnOp, operand: Expr)
    /** `target op= value`; `aop` is None for plain `=`. */
    | Assign(target: Expr, aop: Option<BinOp>, value: Expr)
    | Cond(cond: Expr, thenExpr: Expr, elseExpr: Expr)
    | VarDecl(vars: seq<Declarator>)
    | Lambda(params: seq<Param>, body: Stmt)
    | Enclosed(inner: Expr)
    | ArrayAccess(array: Expr, index: Expr)

  datatype Declarator = Declarator(typ: string, name: string, init: Option<Expr>)

  datatype Stmt =
    | ExprStmt(expr: Expr)
    | Block(stmts: seq<Stmt>)
    | If(cond: Expr, thenStmt: Stmt, elseStmt: Option<Stmt>)
    | While(cond: Expr, body: Stmt)
    | Do(body: Stmt, cond: Expr)
    | For(init: seq<Expr>, compare: Option<Expr>, update: seq<Expr>, body: Stmt)
    | ForEach(variable: Declarator, iterable: Expr, body: Stmt)
    | Switch(selector: Expr, entries: seq<SwitchEntry>)
    | Break(breakLabel: Option<string>)
    | Continue(continueLabel: Option<string>)
    | Return(result: Option<Expr>)
    | Yield(yielded: Expr)
    | Throw(thrown: Expr)
    /** The finally block, when present, is a `Block`. */
    | Try(tryBlock: seq<Stmt>, catches: seq<CatchClause>, finallyBlock: Option<Stmt>)
    | Labeled(labelName: string, stmt: Stmt)
    | Empty

  /** A `case l1, l2:` group, or `default:` when it has no labels. */
  datatype SwitchEntry = SwitchEntry(labels: seq<Expr>, body: seq<Stmt>)

  /** A catch clause; `types` has more than one element for a union `A | B`. */
  datatype CatchClause = CatchClause(types: seq<string>, name: string, handler: seq<Stmt>)

  datatype Method = Method(name: string, params: seq<Param>, body: Option<seq<Stmt>>)

  /**
   * What symbol resolution says about the type of a for-each iterable: a
   * reference type carries its class name and its type arguments. Resolution
   * itself is an input of the model.
   */
  datatype ResolvedType =
    | Unresolved
    | PrimitiveType
    | ArrayType
    | ReferenceType(className: string, typeArguments: seq<TypeArgument>)

  /**
   * A resolved type argument: a reference type, with its qualified name, or
   * anything else (a type variable, a wildcard, an array type), which has no
   * reference-type view.
   */
  datatype TypeArgument = ReferenceArgument(qualifiedName: string) | OtherArgument

  // Rendering

  function BinOpText(op: BinOp): string
  {
    match op
    case OrOp => "||"
    case AndOp => "&&"
    case BitOrOp => "|"
    case XorOp => "^"
    case BitAndOp => "&"
    case EqualsOp => "=="
    case NotEqualsOp => "!="
    case LessOp => "<"
    case GreaterOp => ">"
    case LessEqOp => "<="
    case GreaterEqOp => ">="
    case LeftShiftOp => "<<"
    case RightShiftOp => ">>"
    case UnsignedRightShiftOp => ">>>"
    case PlusOp => "+"
    case MinusOp => "-"
    case TimesOp => "*"
    case DivideOp => "/"
    case RemainderOp => "%"
  }

  function Join(parts: seq<string>, sep: string): string
  {
    if |parts| == 0 then ""
    else if |parts| == 1 then parts[0]
    else parts[0] + sep + Join(parts[1..], sep)
  }

  /** Decimal digits of `n`, as Java's string concatenation writes an `int`. */
  function NatToString(n: nat): (r: string)
    ensures |r| >= 1
    ensures forall i :: 0 <= i < |r| ==> '0' <= r[i] <= '9'
  {
    var digit := ['0' + (n % 10) as char];
    if n < 10 then digit else NatToString(n / 10) + digit
  }

  /** The names both for-each rewritings give their `n`-th index and iterator variables. */
  function IndexName(n: nat): string { "index" + NatToString(n) }

  function IteratorName(n: nat): string { "iterator" + NatToString(n) }

  function PrintParam(p: Param): string
  {
    if p.typ == "" then p.name else p.typ + " " + p.name
  }

  function PrintParams(ps: seq<Param>): string
    decreases |ps|
  {
    if |ps| == 0 then "" else if |ps| == 1 then PrintParam(ps[0]) else PrintParam(ps[0]) + ", " + PrintParams(ps[1..])
  }

  function PrintExpr(e: Expr): string
    decreases e, 1
  {
    match e
    case Name(id) => id
    case Lit(_, text) => text
    case FieldAccess(scope, field) => PrintExpr(scope) + "." + field
    case MethodCall(scope, m, args) =>
      (if scope.Some? then PrintExpr(scope.value) + "." else "") + m + "(" + PrintExprs(args) + ")"
    case MethodRef(scope, ident) => PrintExpr(scope) + "::" + ident
    case Binary(op, l, r) => PrintExpr(l) + " " + BinOpText(op) + " " + PrintExpr(r)
    case Unary(op, x) =>
      (match op
       case Negate => "-" + PrintExpr(x)
       case Positive => "+" + PrintExpr(x)
       case Not => "!" + PrintExpr(x)
       case Complement => "~" + PrintExpr(x)
       case PreIncrement => "++" + PrintExpr(x)
       case PreDecrement => "--" + PrintExpr(x)
       case PostIncrement => PrintExpr(x) + "++"
       case PostDecrement => PrintExpr(x) + "--")
    case Assign(t, op, v) =>
      PrintExpr(t) + " " + (if op.Some? then BinOpText(op.value) else "") + "= " + PrintExpr(v)
    case Cond(c, a, b) => PrintExpr(c) + " ? " + PrintExpr(a) + " : " + PrintExpr(b)
    case VarDecl(vars) => (if |vars| == 0 then "" else vars[0].typ + " ") + PrintDeclarators(vars)
    case Lambda(ps, body) =>
      "(" + PrintParams(ps) + ") -> " + (if body.ExprStmt? then PrintExpr(body.expr) else PrintStmt(body))
    case Enclosed(x) => "(" + PrintExpr(x) + ")"
    case ArrayAccess(a, i) => PrintExpr(a) + "[" + PrintExpr(i) + "]"
  }

  function PrintExprs(es: seq<Expr>): string
    decreases es, 0
  {
    if |es| == 0 then "" else if |es| == 1 then PrintExpr(es[0]) else PrintExpr(es[0]) + ", " + PrintExprs(es[1..])
  }

  function PrintDeclarator(d: Declarator): string
    decreases d, 1
  {
    d.name + (if d.init.Some? then " = " + PrintExpr(d.init.value) else "")
  }

  function PrintDeclarators(ds: seq<Declarator>): string
    decreases ds, 0
  {
    if |ds| == 0 then "" else if |ds| == 1 then PrintDeclarator(ds[0])
    else PrintDeclarator(ds[0]) + ", " + PrintDeclarators(ds[1..])
  }

  function PrintStmt(s: Stmt): string
    decreases s, 1
  {
    match s
    case ExprStmt(e) => PrintExpr(e) + ";"
    case Block(ss) => PrintBlock(ss)
    case If(c, t, el) => "if (" + PrintExpr(c) + ") " + PrintStmt(t) + (if el.Some? then " else " + PrintStmt(el.value) else "")
    case While(c, b) => "while (" + PrintExpr(c) + ") " + PrintStmt(b)
    case Do(b, c) => "do " + PrintStmt(b) + " while (" + PrintExpr(c) + ");"
    case For(init, cmp, upd, b) =>
      "for (" + PrintExprs(init) + "; " + (if cmp.Some? then PrintExpr(cmp.value) else "") + "; " + PrintExprs(upd) + ") " + PrintStmt(b)
    case ForEach(v, it, b) => "for (" + v.typ + " " + PrintDeclarator(v) + " : " + PrintExpr(it) + ") " + PrintStmt(b)
    case Switch(sel, entries) => "switch (" + PrintExpr(sel) + ") {" + PrintEntries(entries) + " }"
    case Break(l) => if l.Some? then "break " + l.value + ";" else "break;"
    case Continue(l) => if l.Some? then "continue " + l.value + ";" else "continue;"
    case Return(e) => if e.Some? then "return " + PrintExpr(e.value) + ";" else "return;"
    case Yield(e) => "yield " + PrintExpr(e) + ";"
    case Throw(e) => "throw " + PrintExpr(e) + ";"
    case Try(b, cs, f) => "try " + PrintBlock(b) + PrintCatches(cs) + (if f.Some? then " finally " + PrintStmt(f.value) else "")
    case Labeled(l, x) => l + ": " + PrintStmt(x)
    case Empty => ";"
  }

  function PrintBlock(ss: seq<Stmt>): string
    decreases ss, 1
  {
    "{" + PrintStmts(ss) + " }"
  }

  /** Each statement preceded by a space. */
  function PrintStmts(ss: seq<Stmt>): string
    decreases ss, 0
  {
    if |ss| == 0 then "" else " " + PrintStmt(ss[0]) + PrintStmts(ss[1..])
  }

  function PrintEntries(es: seq<SwitchEntry>): string
    decreases es
  {
    if |es| == 0 then ""
    else
      " " + (if |es[0].labels| == 0 then "default:" else "case " + PrintExprs(es[0].labels) + ":")
      + PrintStmts(es[0].body) + PrintEntries(es[1..])
  }

  function PrintCatches(cs: seq<CatchClause>): string
    decreases cs
  {
    if |cs| == 0 then ""
    else " catch (" + Join(cs[0].types, " | ") + " " + cs[0].name + ") " + PrintBlock(cs[0].handler) + PrintCatches(cs[1..])
  }
}
