/**
 * The literal canonicalizer: every boolean, character, double, integer,
 * long, string and text-block literal becomes a name standing for its kind
 * (`BOOL_LIT`, `CHAR_LIT`, ...); `null` and everything that is not a
 * literal stay as they are. The visitor replaces a literal in its parent,
 * so a literal at the root of the tree it is applied to, which has no
 * parent, is kept.
 */
module LiteralCanonicalizer {
  import opened Wrappers
  import opened JavaAst

  /** The name a literal of kind `k` is replaced by; `null` has none. */
  function Placeholder(k: LitKind): (r: Option<string>)
    ensures r.Some? <==> k != NullLit
    ensures r.Some? ==> |r.value| > 4 && r.value[|r.value| - 4..] == "_LIT"
  {
    match k
    case BoolLit => Some("BOOL_LIT")
    case CharLit => Some("CHAR_LIT")
    case DoubleLit => Some("DOUBLE_LIT")
    case IntLit => Some("INT_LIT")
    case LongLit => Some("LONG_LIT")
    case StringLit => Some("STR_LIT")
    case TextBlockLit => Some("TEXT_BLOCK_LIT")
    case NullLit => None
  }

  /** Different literal kinds get different placeholders. */
  lemma PlaceholdersDistinct(k1: LitKind, k2: LitKind)
    requires k1 != k2 && Placeholder(k1).Some? && Placeholder(k2).Some?
    ensures Placeholder(k1).value != Placeholder(k2).value
  {
  }

  /** A literal that the visitor replaces. */
  predicate Replaceable(e: Expr)
  {
    e.Lit? && Placeholder(e.kind).Some?
  }

  /** No replaceable literal occurs anywhere in `e`, lambda bodies included. */
  predicate LitFree(e: Expr)
    decreases e, 0
  {
    match e
    case Name(_) => true
    case Lit(k, _) => Placeholder(k).None?
    case FieldAccess(s, _) => LitFree(s)
    case MethodCall(r, _, args) => (r.Some? ==> LitFree(r.value)) && forall i :: 0 <= i < |args| ==> LitFree(args[i])
    case MethodRef(s, _) => LitFree(s)
    case Binary(_, l, r) => LitFree(l) && LitFree(r)
    case Unary(_, x) => LitFree(x)
    case Assign(t, _, v) => LitFree(t) && LitFree(v)
    case Cond(c, a, b) => LitFree(c) && LitFree(a) && LitFree(b)
    case VarDecl(ds) => forall i :: 0 <= i < |ds| ==> LitFreeDecl(ds[i])
    case Lambda(_, body) => LitFreeStmt(body)
    case Enclosed(x) => LitFree(x)
    case ArrayAccess(a, i) => LitFree(a) && LitFree(i)
  }

  predicate LitFreeDecl(d: Declarator)
    decreases d, 1
  {
    d.init.Some? ==> LitFree(d.init.value)
  }

  predicate LitFreeStmt(s: Stmt)
    decreases s, 0
  {
    match s
    case ExprStmt(e) => LitFree(e)
    case Block(ss) => forall i :: 0 <= i < |ss| ==> LitFreeStmt(ss[i])
    case If(c, t, el) => LitFree(c) && LitFreeStmt(t) && (el.Some? ==> LitFreeStmt(el.value))
    case While(c, b) => LitFree(c) && LitFreeStmt(b)
    case Do(b, c) => LitFreeStmt(b) && LitFree(c)
    case For(init, cmp, upd, b) =>
      (forall i :: 0 <= i < |init| ==> LitFree(init[i])) && (cmp.Some? ==> LitFree(cmp.value))
      && (forall i :: 0 <= i < |upd| ==> LitFree(upd[i])) && LitFreeStmt(b)
    case ForEach(v, it, b) => LitFreeDecl(v) && LitFree(it) && LitFreeStmt(b)
    case Switch(sel, es) =>
      LitFree(sel) && forall i :: 0 <= i < |es| ==> LitFreeEntry(es[i])
    case Break(_) => true
    case Continue(_) => true
    case Return(e) => e.Some? ==> LitFree(e.value)
    case Yield(e) => LitFree(e)
    case Throw(e) => LitFree(e)
    case Try(b, cs, f) =>
      (forall i :: 0 <= i < |b| ==> LitFreeStmt(b[i]))
      && (forall i :: 0 <= i < |cs| ==> LitFreeCatch(cs[i]))
      && (f.Some? ==> LitFreeStmt(f.value))
    case Labeled(_, x) => LitFreeStmt(x)
    case Empty => true
  }

  predicate LitFreeEntry(en: SwitchEntry)
    decreases en, 1
  {
    (forall i :: 0 <= i < |en.labels| ==> LitFree(en.labels[i]))
    && forall i :: 0 <= i < |en.body| ==> LitFreeStmt(en.body[i])
  }

  predicate LitFreeCatch(c: CatchClause)
    decreases c, 1
  {
    forall i :: 0 <= i < |c.handler| ==> LitFreeStmt(c.handler[i])
  }

  /** The visitor on an expression that has a parent: every replaceable literal in it is replaced. */
  function ReplaceExpr(e: Expr): (r: Expr)
    ensures LitFree(r)
    decreases e, 0
  {
    match e
    case Name(_) => e
    case Lit(k, _) => if Placeholder(k).Some? then Name(Placeholder(k).value) else e
    case FieldAccess(s, f) => FieldAccess(ReplaceExpr(s), f)
    case MethodCall(recv, m, args) =>
      MethodCall(if recv.Some? then Some(ReplaceExpr(recv.value)) else None, m,
                 seq(|args|, i requires 0 <= i < |args| => ReplaceExpr(args[i])))
    case MethodRef(s, ident) => MethodRef(ReplaceExpr(s), ident)
    case Binary(op, l, r) => Binary(op, ReplaceExpr(l), ReplaceExpr(r))
    case Unary(op, x) => Unary(op, ReplaceExpr(x))
    case Assign(t, op, v) => Assign(ReplaceExpr(t), op, ReplaceExpr(v))
    case Cond(c, a, b) => Cond(ReplaceExpr(c), ReplaceExpr(a), ReplaceExpr(b))
    case VarDecl(ds) => VarDecl(seq(|ds|, i requires 0 <= i < |ds| => ReplaceDecl(ds[i])))
    case Lambda(ps, body) => Lambda(ps, ReplaceStmt(body))
    case Enclosed(x) => Enclosed(ReplaceExpr(x))
    case ArrayAccess(a, i) => ArrayAccess(ReplaceExpr(a), ReplaceExpr(i))
  }

  function ReplaceDecl(d: Declarator): (r: Declarator)
    ensures LitFreeDecl(r)
    ensures r.typ == d.typ && r.name == d.name && r.init.Some? == d.init.Some?
    decreases d, 1
  {
    Declarator(d.typ, d.name, if d.init.Some? then Some(ReplaceExpr(d.init.value)) else None)
  }

  function ReplaceStmt(s: Stmt): (r: Stmt)
    ensures LitFreeStmt(r)
    decreases s, 0
  {
    match s
    case ExprStmt(e) => ExprStmt(ReplaceExpr(e))
    case Block(ss) => Block(seq(|ss|, i requires 0 <= i < |ss| => ReplaceStmt(ss[i])))
    case If(c, t, el) => If(ReplaceExpr(c), ReplaceStmt(t), if el.Some? then Some(ReplaceStmt(el.value)) else None)
    case While(c, b) => While(ReplaceExpr(c), ReplaceStmt(b))
    case Do(b, c) => Do(ReplaceStmt(b), ReplaceExpr(c))
    case For(init, cmp, upd, b) =>
      For(seq(|init|, i requires 0 <= i < |init| => ReplaceExpr(init[i])),
          if cmp.Some? then Some(ReplaceExpr(cmp.value)) else None,
          seq(|upd|, i requires 0 <= i < |upd| => ReplaceExpr(upd[i])),
          ReplaceStmt(b))
    case ForEach(v, it, b) => ForEach(ReplaceDecl(v), ReplaceExpr(it), ReplaceStmt(b))
    case Switch(sel, es) => Switch(ReplaceExpr(sel), seq(|es|, i requires 0 <= i < |es| => ReplaceEntry(es[i])))
    case Break(_) => s
    case Continue(_) => s
    case Return(e) => Return(if e.Some? then Some(ReplaceExpr(e.value)) else None)
    case Yield(e) => Yield(ReplaceExpr(e))
    case Throw(e) => Throw(ReplaceExpr(e))
    case Try(b, cs, f) =>
      Try(seq(|b|, i requires 0 <= i < |b| => ReplaceStmt(b[i])),
          seq(|cs|, i requires 0 <= i < |cs| => ReplaceCatch(cs[i])),
          if f.Some? then Some(ReplaceStmt(f.value)) else None)
    case Labeled(l, x) => Labeled(l, ReplaceStmt(x))
    case Empty => s
  }

  function ReplaceEntry(en: SwitchEntry): (r: SwitchEntry)
    ensures LitFreeEntry(r)
    decreases en, 1
  {
    SwitchEntry(seq(|en.labels| , i requires 0 <= i < |en.labels| => ReplaceExpr(en.labels[i])),
                seq(|en.body|, i requires 0 <= i < |en.body| => ReplaceStmt(en.body[i])))
  }

  function ReplaceCatch(c: CatchClause): (r: CatchClause)
    ensures LitFreeCatch(r)
    decreases c, 1
  {
    CatchClause(c.types, c.name, seq(|c.handler|, i requires 0 <= i < |c.handler| => ReplaceStmt(c.handler[i])))
  }

  /**
   * The visitor applied to a detached expression, as the canonicalizer does
   * to its clone: a root literal has no parent to be replaced in.
   */
  function CanonicalizeRoot(e: Expr): (r: Expr)
    ensures e.Lit? ==> r == e
    ensures !e.Lit? ==> LitFree(r)
  {
    if e.Lit? then e else ReplaceExpr(e)
  }

  /** On a tree without replaceable literals the visitor changes nothing. */
  lemma {:induction false} ReplaceLitFree(e: Expr)
    requires LitFree(e)
    ensures ReplaceExpr(e) == e
    decreases e, 0
  {
    match e
    case Name(_) =>
    case Lit(_, _) =>
    case FieldAccess(s, _) => ReplaceLitFree(s);
    case MethodCall(recv, m, args) =>
      if recv.Some? { ReplaceLitFree(recv.value); }
      forall i | 0 <= i < |args| { ReplaceLitFree(args[i]); }
    case MethodRef(s, _) => ReplaceLitFree(s);
    case Binary(_, l, r) => ReplaceLitFree(l); ReplaceLitFree(r);
    case Unary(_, x) => ReplaceLitFree(x);
    case Assign(t, _, v) => ReplaceLitFree(t); ReplaceLitFree(v);
    case Cond(c, a, b) => ReplaceLitFree(c); ReplaceLitFree(a); ReplaceLitFree(b);
    case VarDecl(ds) => forall i | 0 <= i < |ds| { ReplaceDeclLitFree(ds[i]); }
    case Lambda(_, body) => ReplaceStmtLitFree(body);
    case Enclosed(x) => ReplaceLitFree(x);
    case ArrayAccess(a, i) => ReplaceLitFree(a); ReplaceLitFree(i);
  }

  lemma {:induction false} ReplaceDeclLitFree(d: Declarator)
    requires LitFreeDecl(d)
    ensures ReplaceDecl(d) == d
    decreases d, 1
  {
    if d.init.Some? { ReplaceLitFree(d.init.value); }
  }

  lemma {:induction false} ReplaceStmtLitFree(s: Stmt)
    requires LitFreeStmt(s)
    ensures ReplaceStmt(s) == s
    decreases s, 0
  {
    match s
    case ExprStmt(e) => ReplaceLitFree(e);
    case Block(ss) => forall i | 0 <= i < |ss| { ReplaceStmtLitFree(ss[i]); }
    case If(c, t, el) =>
      ReplaceLitFree(c); ReplaceStmtLitFree(t);
      if el.Some? { ReplaceStmtLitFree(el.value); }
    case While(c, b) => ReplaceLitFree(c); ReplaceStmtLitFree(b);
    case Do(b, c) => ReplaceStmtLitFree(b); ReplaceLitFree(c);
    case For(init, cmp, upd, b) =>
      forall i | 0 <= i < |init| { ReplaceLitFree(init[i]); }
      if cmp.Some? { ReplaceLitFree(cmp.value); }
      forall i | 0 <= i < |upd| { ReplaceLitFree(upd[i]); }
      ReplaceStmtLitFree(b);
    case ForEach(v, it, b) => ReplaceDeclLitFree(v); ReplaceLitFree(it); ReplaceStmtLitFree(b);
    case Switch(sel, es) =>
      ReplaceLitFree(sel);
      forall i | 0 <= i < |es| { ReplaceEntryLitFree(es[i]); }
    case Break(_) =>
    case Continue(_) =>
    case Return(e) => if e.Some? { ReplaceLitFree(e.value); }
    case Yield(e) => ReplaceLitFree(e);
    case Throw(e) => ReplaceLitFree(e);
    case Try(b, cs, f) =>
      forall i | 0 <= i < |b| { ReplaceStmtLitFree(b[i]); }
      forall i | 0 <= i < |cs| { ReplaceCatchLitFree(cs[i]); }
      if f.Some? { ReplaceStmtLitFree(f.value); }
    case Labeled(_, x) => ReplaceStmtLitFree(x);
    case Empty =>
  }

  lemma {:induction false} ReplaceEntryLitFree(en: SwitchEntry)
    requires LitFreeEntry(en)
    ensures ReplaceEntry(en) == en
    decreases en, 1
  {
    forall i | 0 <= i < |en.labels| { ReplaceLitFree(en.labels[i]); }
    forall i | 0 <= i < |en.body| { ReplaceStmtLitFree(en.body[i]); }
  }

  lemma {:induction false} ReplaceCatchLitFree(c: CatchClause)
    requires LitFreeCatch(c)
    ensures ReplaceCatch(c) == c
    decreases c, 1
  {
    forall i | 0 <= i < |c.handler| { ReplaceStmtLitFree(c.handler[i]); }
  }

  /** A second pass changes nothing: placeholders are names, not literals. */
  lemma ReplaceIdempotent(s: Stmt)
    ensures ReplaceStmt(ReplaceStmt(s)) == ReplaceStmt(s)
  {
    ReplaceStmtLitFree(ReplaceStmt(s));
  }

  lemma CanonicalizeRootIdempotent(e: Expr)
    ensures CanonicalizeRoot(CanonicalizeRoot(e)) == CanonicalizeRoot(e)
  {
    if !e.Lit? {
      ReplaceLitFree(ReplaceExpr(e));
    }
  }

  /** A literal with a parent becomes its placeholder; `null` is kept. */
  lemma ReplacedLiteral(k: LitKind, text: string)
    ensures k != NullLit ==> ReplaceExpr(Lit(k, text)) == Name(Placeholder(k).value)
    ensures k == NullLit ==> ReplaceExpr(Lit(k, text)) == Lit(k, text)
  {
  }
}
