/**
 * Properties of the ternary flattener. The central one: in each copy of the
 * statement, the first ternary with the same rendering as the ternary being
 * rewritten is that ternary itself, so finding it by text selects exactly the
 * first ternary of the statement.
 */
module CondExprToIfProofs {
  import opened Wrappers
  import opened JavaAst
  import opened CondExprToIf

  // A ternary accepted by its rendering is accepted by any-ternary.

  lemma {:induction false} MatchMonotone(e: Expr, t: string)
    ensures HasMatch(e, Some(t)) ==> HasMatch(e, AnyCond)
    decreases e, 1
  {
    match e
    case Name(_) =>
    case Lit(_, _) =>
    case FieldAccess(s, _) => MatchMonotone(s, t);
    case MethodCall(recv, _, args) =>
      if recv.Some? { MatchMonotone(recv.value, t); }
      MatchMonotoneExprs(args, t);
    case MethodRef(s, _) => MatchMonotone(s, t);
    case Binary(_, l, r) => MatchMonotone(l, t); MatchMonotone(r, t);
    case Unary(_, x) => MatchMonotone(x, t);
    case Assign(a, _, v) => MatchMonotone(a, t); MatchMonotone(v, t);
    case Cond(c, a, b) =>
    case VarDecl(ds) => MatchMonotoneDecls(ds, t);
    case Lambda(_, body) => MatchMonotoneStmt(body, t);
    case Enclosed(x) => MatchMonotone(x, t);
    case ArrayAccess(a, i) => MatchMonotone(a, t); MatchMonotone(i, t);
  }

  lemma {:induction false} MatchMonotoneExprs(es: seq<Expr>, t: string)
    ensures HasMatchExprs(es, Some(t)) ==> HasMatchExprs(es, AnyCond)
    decreases es, 0
  {
    if |es| > 0 {
      MatchMonotone(es[0], t);
      MatchMonotoneExprs(es[1..], t);
    }
  }

  lemma {:induction false} MatchMonotoneDecls(ds: seq<Declarator>, t: string)
    ensures HasMatchDecls(ds, Some(t)) ==> HasMatchDecls(ds, AnyCond)
    decreases ds, 0
  {
    if |ds| > 0 {
      if ds[0].init.Some? { MatchMonotone(ds[0].init.value, t); }
      MatchMonotoneDecls(ds[1..], t);
    }
  }

  lemma {:induction false} MatchMonotoneStmt(s: Stmt, t: string)
    ensures HasMatchStmt(s, Some(t)) ==> HasMatchStmt(s, AnyCond)
    decreases s, 1
  {
    match s
    case ExprStmt(e) => MatchMonotone(e, t);
    case Block(ss) => MatchMonotoneStmts(ss, t);
    case If(c, th, el) =>
      MatchMonotone(c, t); MatchMonotoneStmt(th, t);
      if el.Some? { MatchMonotoneStmt(el.value, t); }
    case While(c, b) => MatchMonotone(c, t); MatchMonotoneStmt(b, t);
    case Do(b, c) => MatchMonotoneStmt(b, t); MatchMonotone(c, t);
    case For(init, cmp, upd, b) =>
      MatchMonotoneExprs(init, t);
      if cmp.Some? { MatchMonotone(cmp.value, t); }
      MatchMonotoneExprs(upd, t); MatchMonotoneStmt(b, t);
    case ForEach(v, it, b) =>
      if v.init.Some? { MatchMonotone(v.init.value, t); }
      MatchMonotone(it, t); MatchMonotoneStmt(b, t);
    case Switch(sel, es) => MatchMonotone(sel, t); MatchMonotoneEntries(es, t);
    case Break(_) =>
    case Continue(_) =>
    case Return(e) => if e.Some? { MatchMonotone(e.value, t); }
    case Yield(e) => MatchMonotone(e, t);
    case Throw(e) => MatchMonotone(e, t);
    case Try(b, cs, f) =>
      MatchMonotoneStmts(b, t); MatchMonotoneCatches(cs, t);
      if f.Some? { MatchMonotoneStmt(f.value, t); }
    case Labeled(_, x) => MatchMonotoneStmt(x, t);
    case Empty =>
  }

  lemma {:induction false} MatchMonotoneStmts(ss: seq<Stmt>, t: string)
    ensures HasMatchStmts(ss, Some(t)) ==> HasMatchStmts(ss, AnyCond)
    decreases ss, 0
  {
    if |ss| > 0 {
      MatchMonotoneStmt(ss[0], t);
      MatchMonotoneStmts(ss[1..], t);
    }
  }

  lemma {:induction false} MatchMonotoneEntries(es: seq<SwitchEntry>, t: string)
    ensures HasMatchEntries(es, Some(t)) ==> HasMatchEntries(es, AnyCond)
    decreases es, 0
  {
    if |es| > 0 {
      MatchMonotoneExprs(es[0].labels, t);
      MatchMonotoneStmts(es[0].body, t);
      MatchMonotoneEntries(es[1..], t);
    }
  }

  lemma {:induction false} MatchMonotoneCatches(cs: seq<CatchClause>, t: string)
    ensures HasMatchCatches(cs, Some(t)) ==> HasMatchCatches(cs, AnyCond)
    decreases cs, 0
  {
    if |cs| > 0 {
      MatchMonotoneStmts(cs[0].handler, t);
      MatchMonotoneCatches(cs[1..], t);
    }
  }

  // The first ternary is the first ternary with its own rendering.

  lemma {:induction false} TextualMatchIsFirst(e: Expr, c: Expr, b: bool)
    requires FirstMatch(e, AnyCond) == Some(c)
    ensures FirstMatch(e, Some(PrintExpr(c))) == Some(c)
    ensures ReplaceExpr(e, Some(PrintExpr(c)), b) == ReplaceExpr(e, AnyCond, b)
    decreases e, 1
  {
    var t := PrintExpr(c);
    match e
    case Cond(_, _, _) =>
    case FieldAccess(s, _) => TextualMatchIsFirst(s, c, b);
    case MethodCall(recv, _, args) =>
      if recv.Some? && HasMatch(recv.value, AnyCond) {
        TextualMatchIsFirst(recv.value, c, b);
      } else {
        if recv.Some? { MatchMonotone(recv.value, t); }
        TextualMatchIsFirstExprs(args, c, b);
      }
    case MethodRef(s, _) => TextualMatchIsFirst(s, c, b);
    case Binary(_, l, r) =>
      if HasMatch(l, AnyCond) { TextualMatchIsFirst(l, c, b); }
      else { MatchMonotone(l, t); TextualMatchIsFirst(r, c, b); }
    case Unary(_, x) => TextualMatchIsFirst(x, c, b);
    case Assign(a, _, v) =>
      if HasMatch(a, AnyCond) { TextualMatchIsFirst(a, c, b); }
      else { MatchMonotone(a, t); TextualMatchIsFirst(v, c, b); }
    case VarDecl(ds) => TextualMatchIsFirstDecls(ds, c, b);
    case Lambda(_, body) => TextualMatchIsFirstStmt(body, c, b);
    case Enclosed(x) => TextualMatchIsFirst(x, c, b);
    case ArrayAccess(a, i) =>
      if HasMatch(a, AnyCond) { TextualMatchIsFirst(a, c, b); }
      else { MatchMonotone(a, t); TextualMatchIsFirst(i, c, b); }
  }

  lemma {:induction false} TextualMatchIsFirstExprs(es: seq<Expr>, c: Expr, b: bool)
    requires FirstMatchExprs(es, AnyCond) == Some(c)
    ensures FirstMatchExprs(es, Some(PrintExpr(c))) == Some(c)
    ensures ReplaceExprs(es, Some(PrintExpr(c)), b) == ReplaceExprs(es, AnyCond, b)
    decreases es, 0
  {
    if HasMatch(es[0], AnyCond) {
      TextualMatchIsFirst(es[0], c, b);
    } else {
      MatchMonotone(es[0], PrintExpr(c));
      TextualMatchIsFirstExprs(es[1..], c, b);
    }
  }

  lemma {:induction false} TextualMatchIsFirstDecls(ds: seq<Declarator>, c: Expr, b: bool)
    requires FirstMatchDecls(ds, AnyCond) == Some(c)
    ensures FirstMatchDecls(ds, Some(PrintExpr(c))) == Some(c)
    ensures ReplaceDecls(ds, Some(PrintExpr(c)), b) == ReplaceDecls(ds, AnyCond, b)
    decreases ds, 0
  {
    if ds[0].init.Some? && HasMatch(ds[0].init.value, AnyCond) {
      TextualMatchIsFirst(ds[0].init.value, c, b);
    } else {
      if ds[0].init.Some? { MatchMonotone(ds[0].init.value, PrintExpr(c)); }
      TextualMatchIsFirstDecls(ds[1..], c, b);
    }
  }

  lemma {:induction false} TextualMatchIsFirstStmt(s: Stmt, c: Expr, b: bool)
    requires FirstMatchStmt(s, AnyCond) == Some(c)
    ensures FirstMatchStmt(s, Some(PrintExpr(c))) == Some(c)
    ensures ReplaceStmt(s, Some(PrintExpr(c)), b) == ReplaceStmt(s, AnyCond, b)
    decreases s, 1
  {
    var t := PrintExpr(c);
    match s
    case ExprStmt(e) => TextualMatchIsFirst(e, c, b);
    case Block(ss) => TextualMatchIsFirstStmts(ss, c, b);
    case Switch(sel, es) =>
      if HasMatch(sel, AnyCond) { TextualMatchIsFirst(sel, c, b); }
      else { MatchMonotone(sel, t); TextualMatchIsFirstEntries(es, c, b); }
    case Return(e) => TextualMatchIsFirst(e.value, c, b);
    case Yield(e) => TextualMatchIsFirst(e, c, b);
    case Throw(e) => TextualMatchIsFirst(e, c, b);
    case Labeled(_, x) => TextualMatchIsFirstStmt(x, c, b);
    case If(_, _, _) => TextualMatchIsFirstCompound(s, c, b);
    case While(_, _) => TextualMatchIsFirstCompound(s, c, b);
    case Do(_, _) => TextualMatchIsFirstCompound(s, c, b);
    case For(_, _, _, _) => TextualMatchIsFirstCompound(s, c, b);
    case ForEach(_, _, _) => TextualMatchIsFirstCompound(s, c, b);
    case Try(_, _, _) => TextualMatchIsFirstCompound(s, c, b);
  }

  /** The statements with a condition or a nested statement of their own. */
  lemma {:induction false} TextualMatchIsFirstCompound(s: Stmt, c: Expr, b: bool)
    requires s.If? || s.While? || s.Do? || s.For? || s.ForEach? || s.Try?
    requires FirstMatchStmt(s, AnyCond) == Some(c)
    ensures FirstMatchStmt(s, Some(PrintExpr(c))) == Some(c)
    ensures ReplaceStmt(s, Some(PrintExpr(c)), b) == ReplaceStmt(s, AnyCond, b)
    decreases s, 0
  {
    var t := PrintExpr(c);
    match s
    case If(cd, th, el) =>
      if HasMatch(cd, AnyCond) { TextualMatchIsFirst(cd, c, b); }
      else {
        MatchMonotone(cd, t);
        if HasMatchStmt(th, AnyCond) { TextualMatchIsFirstStmt(th, c, b); }
        else { MatchMonotoneStmt(th, t); TextualMatchIsFirstStmt(el.value, c, b); }
      }
    case While(cd, body) =>
      if HasMatch(cd, AnyCond) { TextualMatchIsFirst(cd, c, b); }
      else { MatchMonotone(cd, t); TextualMatchIsFirstStmt(body, c, b); }
    case Do(body, cd) =>
      if HasMatchStmt(body, AnyCond) { TextualMatchIsFirstStmt(body, c, b); }
      else { MatchMonotoneStmt(body, t); TextualMatchIsFirst(cd, c, b); }
    case For(init, cmp, upd, body) =>
      if HasMatchExprs(init, AnyCond) { TextualMatchIsFirstExprs(init, c, b); }
      else {
        MatchMonotoneExprs(init, t);
        if cmp.Some? && HasMatch(cmp.value, AnyCond) { TextualMatchIsFirst(cmp.value, c, b); }
        else {
          if cmp.Some? { MatchMonotone(cmp.value, t); }
          if HasMatchExprs(upd, AnyCond) { TextualMatchIsFirstExprs(upd, c, b); }
          else { MatchMonotoneExprs(upd, t); TextualMatchIsFirstStmt(body, c, b); }
        }
      }
    case ForEach(v, it, body) =>
      if v.init.Some? && HasMatch(v.init.value, AnyCond) { TextualMatchIsFirst(v.init.value, c, b); }
      else {
        if v.init.Some? { MatchMonotone(v.init.value, t); }
        if HasMatch(it, AnyCond) { TextualMatchIsFirst(it, c, b); }
        else { MatchMonotone(it, t); TextualMatchIsFirstStmt(body, c, b); }
      }
    case Try(body, cs, f) =>
      if HasMatchStmts(body, AnyCond) { TextualMatchIsFirstStmts(body, c, b); }
      else {
        MatchMonotoneStmts(body, t);
        if HasMatchCatches(cs, AnyCond) { TextualMatchIsFirstCatches(cs, c, b); }
        else { MatchMonotoneCatches(cs, t); TextualMatchIsFirstStmt(f.value, c, b); }
      }
  }

  lemma {:induction false} TextualMatchIsFirstStmts(ss: seq<Stmt>, c: Expr, b: bool)
    requires FirstMatchStmts(ss, AnyCond) == Some(c)
    ensures FirstMatchStmts(ss, Some(PrintExpr(c))) == Some(c)
    ensures ReplaceStmts(ss, Some(PrintExpr(c)), b) == ReplaceStmts(ss, AnyCond, b)
    decreases ss, 0
  {
    if HasMatchStmt(ss[0], AnyCond) {
      TextualMatchIsFirstStmt(ss[0], c, b);
    } else {
      MatchMonotoneStmt(ss[0], PrintExpr(c));
      TextualMatchIsFirstStmts(ss[1..], c, b);
    }
  }

  lemma {:induction false} TextualMatchIsFirstEntries(es: seq<SwitchEntry>, c: Expr, b: bool)
    requires FirstMatchEntries(es, AnyCond) == Some(c)
    ensures FirstMatchEntries(es, Some(PrintExpr(c))) == Some(c)
    ensures ReplaceEntries(es, Some(PrintExpr(c)), b) == ReplaceEntries(es, AnyCond, b)
    decreases es, 0
  {
    var t := PrintExpr(c);
    if HasMatchExprs(es[0].labels, AnyCond) {
      TextualMatchIsFirstExprs(es[0].labels, c, b);
    } else {
      MatchMonotoneExprs(es[0].labels, t);
      if HasMatchStmts(es[0].body, AnyCond) {
        TextualMatchIsFirstStmts(es[0].body, c, b);
      } else {
        MatchMonotoneStmts(es[0].body, t);
        TextualMatchIsFirstEntries(es[1..], c, b);
      }
    }
  }

  lemma {:induction false} TextualMatchIsFirstCatches(cs: seq<CatchClause>, c: Expr, b: bool)
    requires FirstMatchCatches(cs, AnyCond) == Some(c)
    ensures FirstMatchCatches(cs, Some(PrintExpr(c))) == Some(c)
    ensures ReplaceCatches(cs, Some(PrintExpr(c)), b) == ReplaceCatches(cs, AnyCond, b)
    decreases cs, 0
  {
    if HasMatchStmts(cs[0].handler, AnyCond) {
      TextualMatchIsFirstStmts(cs[0].handler, c, b);
    } else {
      MatchMonotoneStmts(cs[0].handler, PrintExpr(c));
      TextualMatchIsFirstCatches(cs[1..], c, b);
    }
  }

  // The rewrites of the owning statement.

  /**
   * A statement owning its first ternary `c`, other than the special
   * declaration, switch and lambda forms, becomes `if (c.cond) S1 else S2`
   * where S1 and S2 are the statement with `c` replaced by its then and its
   * else branch.
   */
  lemma GeneralRewrite(s: Stmt, parent: Parent)
    requires HasMatchStmt(s, AnyCond) && OwnsFirst(s)
    requires s.ExprStmt? ==> !s.expr.VarDecl? && !(s.expr.Cond? && (parent == InSwitchEntry || parent == InLambda))
    ensures var c := FirstMatchStmt(s, AnyCond).value;
            StepStmt(s, parent) == Ok(Replace([If(c.cond, ReplaceStmt(s, AnyCond, true), Some(ReplaceStmt(s, AnyCond, false)))]))
  {
    var c := FirstMatchStmt(s, AnyCond).value;
    TextualMatchIsFirstStmt(s, c, true);
    TextualMatchIsFirstStmt(s, c, false);
  }

  /** The declaration's first ternary is the first one of the initializer that holds it. */
  lemma {:induction false} FirstMatchInDeclarator(ds: seq<Declarator>)
    requires HasMatchDecls(ds, AnyCond)
    ensures FirstMatchDecls(ds, AnyCond) == FirstMatch(ds[FirstDeclIndex(ds)].init.value, AnyCond)
  {
    if !(ds[0].init.Some? && HasMatch(ds[0].init.value, AnyCond)) {
      FirstMatchInDeclarator(ds[1..]);
    }
  }

  /**
   * In a block, a declaration `T a = .., x = c ? p : q, ..;` becomes the
   * co-declared variables without initializers, `T x;`, and
   * `if (c) x = p'; else x = q';`, the assignment with its first ternary
   * replaced. Outside a block the source has no statement to rewrite.
   */
  lemma DeclarationSplit(ds: seq<Declarator>, parent: Parent)
    requires HasMatchDecls(ds, AnyCond) && OwnedDecls(ds)
    ensures parent != InBlock ==> StepStmt(ExprStmt(VarDecl(ds)), parent) == Err(NullPointer)
    ensures parent == InBlock ==>
              var j := FirstDeclIndex(ds);
              var assignment := ExprStmt(Assign(Name(ds[j].name), None, ds[j].init.value));
              var c := FirstMatch(ds[j].init.value, AnyCond).value;
              && StepStmt(ExprStmt(VarDecl(ds)), parent).Ok?
              && var r := StepStmt(ExprStmt(VarDecl(ds)), parent).value;
              && r.Replace?
              && |r.stmts| == (if |ds| > 1 then 3 else 2)
              && (|ds| > 1 ==> r.stmts[0] == ExprStmt(VarDecl(CoDeclared(ds, j))))
              && r.stmts[|r.stmts| - 2] == ExprStmt(VarDecl([Declarator(ds[j].typ, ds[j].name, None)]))
              && r.stmts[|r.stmts| - 1] ==
                 If(c.cond, ReplaceStmt(assignment, AnyCond, true), Some(ReplaceStmt(assignment, AnyCond, false)))
  {
    var s := ExprStmt(VarDecl(ds));
    assert OwnsFirst(s);
    if parent == InBlock {
      var j := FirstDeclIndex(ds);
      var assignment := ExprStmt(Assign(Name(ds[j].name), None, ds[j].init.value));
      FirstMatchInDeclarator(ds);
      var c := FirstMatchStmt(s, AnyCond).value;
      assert FirstMatchStmt(s, AnyCond) == FirstMatch(VarDecl(ds), AnyCond) == FirstMatchDecls(ds, AnyCond);
      assert !HasMatch(Name(ds[j].name), AnyCond);
      assert FirstMatchStmt(assignment, AnyCond) == FirstMatch(ds[j].init.value, AnyCond);
      TextualMatchIsFirstStmt(assignment, c, true);
      TextualMatchIsFirstStmt(assignment, c, false);
    }
  }

  /** A ternary that is a whole statement of a switch entry: the entry body becomes one if/else of yields. */
  lemma SwitchEntryRewrite(c: Expr, a: Expr, b: Expr)
    ensures StepStmt(ExprStmt(Cond(c, a, b)), InSwitchEntry) == Ok(ReplaceEntry([Block([If(c, Yield(a), Some(Yield(b)))])]))
    ensures StepStmts([ExprStmt(Cond(c, a, b))], InSwitchEntry) == Ok(ReplaceEntry([Block([If(c, Yield(a), Some(Yield(b)))])]))
  {
    assert HasMatchStmt([ExprStmt(Cond(c, a, b))][0], AnyCond);
  }

  /** A ternary that is a whole lambda body: the body becomes one if/else of returns. */
  lemma LambdaBodyRewrite(ps: seq<Param>, c: Expr, a: Expr, b: Expr)
    ensures StepExpr(Lambda(ps, ExprStmt(Cond(c, a, b))))
            == Ok(Lambda(ps, Block([If(c, Return(Some(a)), Some(Return(Some(b))))])))
  {
  }

  /** Every rewrite of a method leaves its name and parameters and, on success, removes all ternaries. */
  lemma RewriteAllResult(m: Method, fuel: nat)
    ensures RewriteAll(m, fuel).Ok? ==> !HasCond(RewriteAll(m, fuel).value)
    ensures HasCond(m) && fuel == 0 ==> RewriteAll(m, fuel) == Err(FuelExhausted)
  {
  }
}
