/**
 * The four canonicalizers the tagger can be configured with. Each works on
 * a copy of the node it is given, so the tree the caller holds is never
 * changed (here, trees are values). An expression is rendered as it stands
 * after the visitors; a statement's rendering loses one trailing `;`.
 */
module Canonicalizer {
  import opened Wrappers
  import opened JavaAst
  import LiteralCanonicalizer
  import VariableCanonicalizer

  datatype Kind = NoCanonicalization | LiteralKind | VariableKind | FullKind

  /** The copy of a detached expression after the visitors of `k`; Full runs the variable pass first. */
  function TransformExpr(k: Kind, e: Expr): (r: Expr)
    ensures k == NoCanonicalization ==> r == e
    ensures k == VariableKind ==> VariableCanonicalizer.Canonical(r, false)
    ensures (k == LiteralKind || k == FullKind) && !e.Lit? ==> LiteralCanonicalizer.LitFree(r)
  {
    match k
    case NoCanonicalization => e
    case LiteralKind => LiteralCanonicalizer.CanonicalizeRoot(e)
    case VariableKind => VariableCanonicalizer.RenameExpr(e, false)
    case FullKind => LiteralCanonicalizer.CanonicalizeRoot(VariableCanonicalizer.RenameExpr(e, false))
  }

  /** The copy of a statement after the visitors of `k`. */
  function TransformStmt(k: Kind, s: Stmt): (r: Stmt)
    ensures k == NoCanonicalization ==> r == s
    ensures k == VariableKind ==> VariableCanonicalizer.CanonicalStmt(r)
    ensures k == LiteralKind || k == FullKind ==> LiteralCanonicalizer.LitFreeStmt(r)
  {
    match k
    case NoCanonicalization => s
    case LiteralKind => LiteralCanonicalizer.ReplaceStmt(s)
    case VariableKind => VariableCanonicalizer.RenameStmt(s)
    case FullKind => LiteralCanonicalizer.ReplaceStmt(VariableCanonicalizer.RenameStmt(s))
  }

  /** `t` without its last character when that is `;`; only one is removed. */
  function StripSemicolon(t: string): (r: string)
    ensures |t| > 0 && t[|t| - 1] == ';' ==> r + ";" == t
    ensures !(|t| > 0 && t[|t| - 1] == ';') ==> r == t
  {
    if |t| > 0 && t[|t| - 1] == ';' then t[..|t| - 1] else t
  }

  function CanonicalizeExpr(k: Kind, e: Expr): string
  {
    PrintExpr(TransformExpr(k, e))
  }

  function CanonicalizeStmt(k: Kind, s: Stmt): string
  {
    StripSemicolon(PrintStmt(TransformStmt(k, s)))
  }

  /** A parameter: its type text, a space, and its name canonicalized as an expression. */
  function CanonicalizeParam(k: Kind, p: Param): string
  {
    p.typ + " " + CanonicalizeExpr(k, Name(p.name))
  }

  /**
   * The name of a parameter is canonicalized detached from any statement, so
   * no canonicalizer changes it.
   */
  lemma ParamKeepsName(k: Kind, p: Param)
    ensures CanonicalizeParam(k, p) == p.typ + " " + p.name
  {
    VariableCanonicalizer.StandaloneKept(Name(p.name));
  }

  /** A statement rendering that ends with `;` loses exactly that `;`. */
  lemma StatementLosesSemicolon(k: Kind, s: Stmt)
    ensures var t := PrintStmt(TransformStmt(k, s));
            |t| > 0 && t[|t| - 1] == ';' ==> CanonicalizeStmt(k, s) + ";" == t
  {
  }

  /** Canonicalizing the result of a canonicalization of the same kind changes nothing on expressions. */
  lemma ExprIdempotent(k: Kind, e: Expr)
    requires k != FullKind || LiteralCanonicalizer.LitFree(e) || VariableCanonicalizer.BinderFree(e)
    ensures TransformExpr(k, TransformExpr(k, e)) == TransformExpr(k, e)
  {
    match k
    case NoCanonicalization =>
    case LiteralKind => LiteralCanonicalizer.CanonicalizeRootIdempotent(e);
    case VariableKind => VariableCanonicalizer.RenameIdempotent(e, false);
    case FullKind =>
      if VariableCanonicalizer.BinderFree(e) {
        VariableCanonicalizer.StandaloneKept(e);
        var l := LiteralCanonicalizer.CanonicalizeRoot(e);
        LiteralCanonicalizer.CanonicalizeRootIdempotent(e);
        LiteralBinderFree(e);
        VariableCanonicalizer.StandaloneKept(l);
      } else {
        var v := VariableCanonicalizer.RenameExpr(e, false);
        LiteralCanonicalizer.ReplaceLitFree(e);
        VariableCanonicalizer.RenameIdempotent(e, false);
        LitFreeRename(e, false);
        if v.Lit? {
        } else {
          LiteralCanonicalizer.ReplaceLitFree(v);
        }
      }
  }

  /** The literal pass introduces no binder. */
  lemma {:induction false} LiteralBinderFree(e: Expr)
    requires VariableCanonicalizer.BinderFree(e)
    ensures VariableCanonicalizer.BinderFree(LiteralCanonicalizer.CanonicalizeRoot(e))
  {
    if !e.Lit? { ReplaceBinderFree(e); }
  }

  lemma {:induction false} ReplaceBinderFree(e: Expr)
    requires VariableCanonicalizer.BinderFree(e)
    ensures VariableCanonicalizer.BinderFree(LiteralCanonicalizer.ReplaceExpr(e))
    decreases e
  {
    match e
    case Name(_) =>
    case Lit(_, _) =>
    case FieldAccess(s, _) => ReplaceBinderFree(s);
    case MethodCall(recv, _, args) =>
      if recv.Some? { ReplaceBinderFree(recv.value); }
      forall i | 0 <= i < |args| { ReplaceBinderFree(args[i]); }
    case MethodRef(s, _) => ReplaceBinderFree(s);
    case Binary(_, l, r) => ReplaceBinderFree(l); ReplaceBinderFree(r);
    case Unary(_, x) => ReplaceBinderFree(x);
    case Assign(t, _, v) => ReplaceBinderFree(t); ReplaceBinderFree(v);
    case Cond(c, a, b) => ReplaceBinderFree(c); ReplaceBinderFree(a); ReplaceBinderFree(b);
    case Enclosed(x) => ReplaceBinderFree(x);
    case ArrayAccess(a, i) => ReplaceBinderFree(a); ReplaceBinderFree(i);
  }

  /** The variable pass introduces no literal. */
  lemma {:induction false} LitFreeRename(e: Expr, inStatement: bool)
    requires LiteralCanonicalizer.LitFree(e)
    ensures LiteralCanonicalizer.LitFree(VariableCanonicalizer.RenameExpr(e, inStatement))
    decreases e, 0
  {
    match e
    case Name(_) =>
    case Lit(_, _) =>
    case FieldAccess(s, _) => LitFreeRename(s, false);
    case MethodCall(recv, _, args) =>
      if recv.Some? { LitFreeRename(recv.value, false); }
      forall i | 0 <= i < |args| { LitFreeRename(args[i], false); }
    case MethodRef(s, _) => LitFreeRename(s, false);
    case Binary(_, l, r) => LitFreeRename(l, inStatement); LitFreeRename(r, inStatement);
    case Unary(_, x) => LitFreeRename(x, inStatement);
    case Assign(t, _, v) => LitFreeRename(t, inStatement); LitFreeRename(v, inStatement);
    case Cond(c, a, b) => LitFreeRename(c, inStatement); LitFreeRename(a, inStatement); LitFreeRename(b, inStatement);
    case VarDecl(ds) =>
      forall i | 0 <= i < |ds| ensures LiteralCanonicalizer.LitFreeDecl(VariableCanonicalizer.RenameDecl(ds[i], inStatement)) {
        assert LiteralCanonicalizer.LitFreeDecl(ds[i]);
        if ds[i].init.Some? { LitFreeRename(ds[i].init.value, inStatement); }
      }
    case Lambda(_, body) => LitFreeRenameStmt(body);
    case Enclosed(x) => LitFreeRename(x, inStatement);
    case ArrayAccess(a, i) => LitFreeRename(a, inStatement); LitFreeRename(i, inStatement);
  }

  lemma {:induction false} LitFreeRenameStmt(s: Stmt)
    requires LiteralCanonicalizer.LitFreeStmt(s)
    ensures LiteralCanonicalizer.LitFreeStmt(VariableCanonicalizer.RenameStmt(s))
    decreases s, 1
  {
    if s.For? || s.Switch? || s.Try? {
      LitFreeRenameLists(s);
    } else if s.Block? || s.If? || s.While? || s.Do? || s.ForEach? || s.Labeled? {
      LitFreeRenameNested(s);
    } else {
      LitFreeRenameSimple(s);
    }
  }

  /** `LitFreeRenameStmt` for the statements that hold no statement. */
  lemma {:induction false} LitFreeRenameSimple(s: Stmt)
    requires s.ExprStmt? || s.Break? || s.Continue? || s.Return? || s.Yield? || s.Throw? || s.Empty?
    requires LiteralCanonicalizer.LitFreeStmt(s)
    ensures LiteralCanonicalizer.LitFreeStmt(VariableCanonicalizer.RenameStmt(s))
    decreases s, 0
  {
    match s
    case ExprStmt(e) => LitFreeRename(e, true);
    case Break(_) =>
    case Continue(_) =>
    case Return(e) => if e.Some? { LitFreeRename(e.value, true); }
    case Yield(e) => LitFreeRename(e, true);
    case Throw(e) => LitFreeRename(e, true);
    case Empty =>
  }

  /** `LitFreeRenameStmt` for the statements that hold single statements. */
  lemma {:induction false} LitFreeRenameNested(s: Stmt)
    requires s.Block? || s.If? || s.While? || s.Do? || s.ForEach? || s.Labeled?
    requires LiteralCanonicalizer.LitFreeStmt(s)
    ensures LiteralCanonicalizer.LitFreeStmt(VariableCanonicalizer.RenameStmt(s))
    decreases s, 0
  {
    match s
    case Block(ss) => forall i | 0 <= i < |ss| { LitFreeRenameStmt(ss[i]); }
    case If(c, t, el) =>
      LitFreeRename(c, true); LitFreeRenameStmt(t);
      if el.Some? { LitFreeRenameStmt(el.value); }
    case While(c, b) => LitFreeRename(c, true); LitFreeRenameStmt(b);
    case Do(b, c) => LitFreeRenameStmt(b); LitFreeRename(c, true);
    case ForEach(v, it, b) =>
      if v.init.Some? { LitFreeRename(v.init.value, true); }
      LitFreeRename(it, true); LitFreeRenameStmt(b);
    case Labeled(_, x) => LitFreeRenameStmt(x);
  }

  /** `LitFreeRenameStmt` for the statements that hold lists of statements or expressions. */
  lemma {:induction false} LitFreeRenameLists(s: Stmt)
    requires s.For? || s.Switch? || s.Try?
    requires LiteralCanonicalizer.LitFreeStmt(s)
    ensures LiteralCanonicalizer.LitFreeStmt(VariableCanonicalizer.RenameStmt(s))
    decreases s, 0
  {
    match s
    case For(init, cmp, upd, b) =>
      forall i | 0 <= i < |init| { LitFreeRename(init[i], true); }
      if cmp.Some? { LitFreeRename(cmp.value, true); }
      forall i | 0 <= i < |upd| { LitFreeRename(upd[i], true); }
      LitFreeRenameStmt(b);
    case Switch(sel, es) =>
      LitFreeRename(sel, true);
      forall i | 0 <= i < |es| ensures LiteralCanonicalizer.LitFreeEntry(VariableCanonicalizer.RenameEntry(es[i])) {
        assert LiteralCanonicalizer.LitFreeEntry(es[i]);
        forall j | 0 <= j < |es[i].labels| { LitFreeRename(es[i].labels[j], true); }
        forall j | 0 <= j < |es[i].body| { LitFreeRenameStmt(es[i].body[j]); }
      }
    case Try(b, cs, f) =>
      forall i | 0 <= i < |b| { LitFreeRenameStmt(b[i]); }
      forall i | 0 <= i < |cs| ensures LiteralCanonicalizer.LitFreeCatch(VariableCanonicalizer.RenameCatch(cs[i])) {
        assert LiteralCanonicalizer.LitFreeCatch(cs[i]);
        forall j | 0 <= j < |cs[i].handler| { LitFreeRenameStmt(cs[i].handler[j]); }
      }
      if f.Some? { LitFreeRenameStmt(f.value); }
  }

  /** The statement `x = 1;`. */
  const AssignOne: Stmt := ExprStmt(Assign(Name("x"), None, Lit(IntLit, "1")))

  /**
   * The order of the passes matters: the variable pass after the literal
   * pass would rename the placeholder itself, so Full runs it first.
   */
  lemma FullOrderMatters()
    ensures CanonicalizeStmt(FullKind, AssignOne) == "VAR = INT_LIT"
    ensures StripSemicolon(PrintStmt(VariableCanonicalizer.RenameStmt(LiteralCanonicalizer.ReplaceStmt(AssignOne)))) == "VAR = VAR"
  {
    VariableFirst();
    LiteralFirst();
  }

  lemma VariableFirst()
    ensures TransformStmt(FullKind, AssignOne) == ExprStmt(Assign(Name("VAR"), None, Name("INT_LIT")))
    ensures CanonicalizeStmt(FullKind, AssignOne) == "VAR = INT_LIT"
  {
    FullAssignOne();
    PrintAssignNames("VAR", "INT_LIT");
  }

  /** Full on `x = 1;`: the name renamed first, then the literal replaced. */
  lemma FullAssignOne()
    ensures TransformStmt(FullKind, AssignOne) == ExprStmt(Assign(Name("VAR"), None, Name("INT_LIT")))
  {
    RenameAssignOne();
    ReplaceAssign(Name("VAR"));
  }

  lemma LiteralFirst()
    ensures StripSemicolon(PrintStmt(VariableCanonicalizer.RenameStmt(LiteralCanonicalizer.ReplaceStmt(AssignOne)))) == "VAR = VAR"
  {
    ReplaceAssign(Name("x"));
    RenameAssignNames("x", "INT_LIT");
    PrintAssignNames("VAR", "VAR");
  }

  /** The variable pass renames the assigned name and keeps the literal. */
  lemma RenameAssignOne()
    ensures VariableCanonicalizer.RenameStmt(AssignOne) == ExprStmt(Assign(Name("VAR"), None, Lit(IntLit, "1")))
  {
    var t := VariableCanonicalizer.RenameExpr(Name("x"), true);
    var v := VariableCanonicalizer.RenameExpr(Lit(IntLit, "1"), true);
    assert t == Name("VAR") && v == Lit(IntLit, "1");
  }

  /** The variable pass renames both names of `a = b;`. */
  lemma RenameAssignNames(a: string, b: string)
    ensures VariableCanonicalizer.RenameStmt(ExprStmt(Assign(Name(a), None, Name(b)))) == ExprStmt(Assign(Name("VAR"), None, Name("VAR")))
  {
    assert VariableCanonicalizer.RenameExpr(Name(a), true) == Name("VAR");
    assert VariableCanonicalizer.RenameExpr(Name(b), true) == Name("VAR");
  }

  /** The literal pass replaces the integer literal assigned to `t`, a name. */
  lemma ReplaceAssign(t: Expr)
    requires t.Name?
    ensures LiteralCanonicalizer.ReplaceStmt(ExprStmt(Assign(t, None, Lit(IntLit, "1")))) == ExprStmt(Assign(t, None, Name("INT_LIT")))
  {
    assert LiteralCanonicalizer.ReplaceExpr(t) == t;
    assert LiteralCanonicalizer.ReplaceExpr(Lit(IntLit, "1")) == Name("INT_LIT");
  }

  lemma PrintAssignNames(a: string, b: string)
    ensures StripSemicolon(PrintStmt(ExprStmt(Assign(Name(a), None, Name(b))))) == a + " = " + b
  {
    var e := Assign(Name(a), None, Name(b));
    assert PrintExpr(e) == a + " " + "" + "= " + b;
    assert a + " " + "" + "= " + b == a + " = " + b;
    assert PrintStmt(ExprStmt(e)) == a + " = " + b + ";";
    assert (a + " = " + b + ";")[..|a + " = " + b|] == a + " = " + b;
  }

  /** For the same reason Full is not idempotent on statements: a second run renames the placeholders. */
  lemma FullStmtNotIdempotent()
    ensures TransformStmt(FullKind, TransformStmt(FullKind, AssignOne)) != TransformStmt(FullKind, AssignOne)
  {
    VariableFirst();
    RenameAssignNames("VAR", "INT_LIT");
  }

  /** The literal and variable passes compose to Full on one statement. */
  lemma FullIsVariableThenLiteral(s: Stmt)
    ensures TransformStmt(FullKind, s) == TransformStmt(LiteralKind, TransformStmt(VariableKind, s))
  {
  }

  /** The literal `true`, which the tagger canonicalizes for a default case, is a root literal and stays `true` under every kind. */
  lemma TrueLiteral(k: Kind)
    ensures CanonicalizeExpr(k, Lit(BoolLit, "true")) == "true"
  {
  }
}
