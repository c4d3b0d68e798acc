/**
 * The variable canonicalizer. A declarator's name becomes `VAR` and only its
 * initializer is visited further. Any other simple name becomes `VAR` exactly
 * when its nearest enclosing node that is a statement, a field access, a
 * method call or a method reference is a statement: names under a field
 * access, call or method reference keep their identifier, and so does every
 * name of an expression canonicalized on its own, which has no statement
 * above it. The flag `inStatement` carries that nearest-ancestor test down
 * the tree. The names inside a type are simple names too: where the flag
 * holds, a lambda parameter's type and a caught exception's type have every
 * identifier replaced, and only keywords and punctuation stay.
 */
module VariableCanonicalizer {
  import opened Wrappers
  import opened JavaAst

  const Var: string := "VAR"

  /** A name at a position whose nearest ancestor test says `inStatement`. */
  function RenameName(id: string, inStatement: bool): (r: string)
    ensures inStatement ==> r == Var
    ensures !inStatement ==> r == id
  {
    if inStatement then Var else id
  }

  /** Whether `c` can be part of a Java identifier or keyword. */
  predicate IsWordChar(c: char)
  {
    || ('a' <= c <= 'z') || ('A' <= c <= 'Z') || ('0' <= c <= '9')
    || c == '_' || c == '$' || c > '\U{7f}'
  }

  /** The length of the run of word characters at the start of `t`. */
  function WordLength(t: string): (n: nat)
    ensures n <= |t|
    ensures forall i :: 0 <= i < n ==> IsWordChar(t[i])
    ensures n < |t| ==> !IsWordChar(t[n])
  {
    if t == [] || !IsWordChar(t[0]) then 0 else 1 + WordLength(t[1..])
  }

  /** The words of a type that are keywords, not names: the primitive types, `void`, `var` and the wildcard bounds. */
  const TypeKeywords: set<string> :=
    {"boolean", "byte", "char", "short", "int", "long", "float", "double", "void", "var", "extends", "super"}

  /**
   * A type written where the nearest-ancestor test holds: every identifier
   * in it (each part of a qualified name, each type argument) becomes `VAR`;
   * keywords and punctuation stay as they are.
   */
  function RenameType(t: string): string
    decreases |t|
  {
    if t == [] then []
    else if !IsWordChar(t[0]) then [t[0]] + RenameType(t[1..])
    else
      var n := WordLength(t);
      (if t[..n] in TypeKeywords then t[..n] else Var) + RenameType(t[n..])
  }

  /** A type whose identifiers are all `VAR` already. */
  predicate TypeCanonical(t: string)
  {
    RenameType(t) == t
  }

  /** The run of word characters at the start of `w + u` is `w`, when `u` does not continue it. */
  lemma {:induction false} WordLengthOfWord(w: string, u: string)
    requires forall i :: 0 <= i < |w| ==> IsWordChar(w[i])
    requires u == [] || !IsWordChar(u[0])
    ensures WordLength(w + u) == |w|
    decreases |w|
  {
    if w == [] {
      assert w + u == u;
    } else {
      assert (w + u)[1..] == w[1..] + u;
      WordLengthOfWord(w[1..], u);
    }
  }

  /** Renaming a type twice is renaming it once: what comes out has only keywords and `VAR` as words. */
  lemma {:induction false} RenameTypeIdempotent(t: string)
    ensures TypeCanonical(RenameType(t))
    decreases |t|
  {
    if t == [] {
    } else if !IsWordChar(t[0]) {
      var rest := RenameType(t[1..]);
      assert ([t[0]] + rest)[1..] == rest;
      RenameTypeIdempotent(t[1..]);
    } else {
      var n := WordLength(t);
      var w := if t[..n] in TypeKeywords then t[..n] else Var;
      var rest := RenameType(t[n..]);
      assert RenameType(t) == w + rest;
      assert Var !in TypeKeywords;
      assert forall i :: 0 <= i < |w| ==> IsWordChar(w[i]);
      if t[n..] != [] {
        assert !IsWordChar(t[n..][0]);
        assert rest[0] == t[n..][0];
      }
      WordLengthOfWord(w, rest);
      assert (w + rest)[..|w|] == w;
      assert (w + rest)[|w|..] == rest;
      RenameTypeIdempotent(t[n..]);
    }
  }

  /**
   * A whole word at the start of a type: a keyword is kept, any other
   * identifier becomes `VAR`, and the rest of the type is renamed on its own.
   */
  lemma RenameTypeWord(w: string, u: string)
    requires w != [] && forall i :: 0 <= i < |w| ==> IsWordChar(w[i])
    requires u == [] || !IsWordChar(u[0])
    ensures RenameType(w + u) == (if w in TypeKeywords then w else Var) + RenameType(u)
  {
    WordLengthOfWord(w, u);
    assert (w + u)[..|w|] == w;
    assert (w + u)[|w|..] == u;
  }

  /** Punctuation at the start of a type is kept. */
  lemma RenameTypePunctuation(c: char, u: string)
    requires !IsWordChar(c)
    ensures RenameType([c] + u) == [c] + RenameType(u)
  {
    assert ([c] + u)[1..] == u;
  }

  /**
   * Every name the visitor renames is already `VAR` in `e`, whose position
   * has the nearest-ancestor flag `inStatement`.
   */
  predicate Canonical(e: Expr, inStatement: bool)
    decreases e, 0
  {
    match e
    case Name(id) => inStatement ==> id == Var
    case Lit(_, _) => true
    case FieldAccess(s, _) => Canonical(s, false)
    case MethodCall(recv, _, args) =>
      (recv.Some? ==> Canonical(recv.value, false)) && forall i :: 0 <= i < |args| ==> Canonical(args[i], false)
    case MethodRef(s, _) => Canonical(s, false)
    case Binary(_, l, r) => Canonical(l, inStatement) && Canonical(r, inStatement)
    case Unary(_, x) => Canonical(x, inStatement)
    case Assign(t, _, v) => Canonical(t, inStatement) && Canonical(v, inStatement)
    case Cond(c, a, b) => Canonical(c, inStatement) && Canonical(a, inStatement) && Canonical(b, inStatement)
    case VarDecl(ds) => forall i :: 0 <= i < |ds| ==> CanonicalDecl(ds[i], inStatement)
    case Lambda(ps, body) =>
      (inStatement ==> forall i :: 0 <= i < |ps| ==> ps[i].name == Var && TypeCanonical(ps[i].typ)) && CanonicalStmt(body)
    case Enclosed(x) => Canonical(x, inStatement)
    case ArrayAccess(a, i) => Canonical(a, inStatement) && Canonical(i, inStatement)
  }

  predicate CanonicalDecl(d: Declarator, inStatement: bool)
    decreases d, 1
  {
    d.name == Var && (d.init.Some? ==> Canonical(d.init.value, inStatement))
  }

  predicate CanonicalStmt(s: Stmt)
    decreases s, 0
  {
    match s
    case ExprStmt(e) => Canonical(e, true)
    case Block(ss) => forall i :: 0 <= i < |ss| ==> CanonicalStmt(ss[i])
    case If(c, t, el) => Canonical(c, true) && CanonicalStmt(t) && (el.Some? ==> CanonicalStmt(el.value))
    case While(c, b) => Canonical(c, true) && CanonicalStmt(b)
    case Do(b, c) => CanonicalStmt(b) && Canonical(c, true)
    case For(init, cmp, upd, b) =>
      (forall i :: 0 <= i < |init| ==> Canonical(init[i], true)) && (cmp.Some? ==> Canonical(cmp.value, true))
      && (forall i :: 0 <= i < |upd| ==> Canonical(upd[i], true)) && CanonicalStmt(b)
    case ForEach(v, it, b) => CanonicalDecl(v, true) && Canonical(it, true) && CanonicalStmt(b)
    case Switch(sel, es) => Canonical(sel, true) && forall i :: 0 <= i < |es| ==> CanonicalEntry(es[i])
    case Break(l) => l.Some? ==> l.value == Var
    case Continue(l) => l.Some? ==> l.value == Var
    case Return(e) => e.Some? ==> Canonical(e.value, true)
    case Yield(e) => Canonical(e, true)
    case Throw(e) => Canonical(e, true)
    case Try(b, cs, f) =>
      (forall i :: 0 <= i < |b| ==> CanonicalStmt(b[i]))
      && (forall i :: 0 <= i < |cs| ==> CanonicalCatch(cs[i]))
      && (f.Some? ==> CanonicalStmt(f.value))
    case Labeled(l, x) => l == Var && CanonicalStmt(x)
    case Empty => true
  }

  predicate CanonicalEntry(en: SwitchEntry)
    decreases en, 1
  {
    (forall i :: 0 <= i < |en.labels| ==> Canonical(en.labels[i], true))
    && forall i :: 0 <= i < |en.body| ==> CanonicalStmt(en.body[i])
  }

  predicate CanonicalCatch(c: CatchClause)
    decreases c, 1
  {
    && c.name == Var
    && (forall i :: 0 <= i < |c.types| ==> TypeCanonical(c.types[i]))
    && forall i :: 0 <= i < |c.handler| ==> CanonicalStmt(c.handler[i])
  }

  /** The visitor on an expression whose position has the nearest-ancestor flag `inStatement`. */
  function RenameExpr(e: Expr, inStatement: bool): (r: Expr)
    ensures Canonical(r, inStatement)
    decreases e, 0
  {
    match e
    case Name(id) => Name(RenameName(id, inStatement))
    case Lit(_, _) => e
    case FieldAccess(s, f) => FieldAccess(RenameExpr(s, false), f)
    case MethodCall(recv, m, args) =>
      MethodCall(if recv.Some? then Some(RenameExpr(recv.value, false)) else None, m,
                 seq(|args|, i requires 0 <= i < |args| => RenameExpr(args[i], false)))
    case MethodRef(s, ident) => MethodRef(RenameExpr(s, false), ident)
    case Binary(op, l, r) => Binary(op, RenameExpr(l, inStatement), RenameExpr(r, inStatement))
    case Unary(op, x) => Unary(op, RenameExpr(x, inStatement))
    case Assign(t, op, v) => Assign(RenameExpr(t, inStatement), op, RenameExpr(v, inStatement))
    case Cond(c, a, b) => Cond(RenameExpr(c, inStatement), RenameExpr(a, inStatement), RenameExpr(b, inStatement))
    case VarDecl(ds) => VarDecl(seq(|ds|, i requires 0 <= i < |ds| => RenameDecl(ds[i], inStatement)))
    case Lambda(ps, body) =>
      Lambda(seq(|ps|, i requires 0 <= i < |ps| => RenameParam(ps[i], inStatement)), RenameStmt(body))
    case Enclosed(x) => Enclosed(RenameExpr(x, inStatement))
    case ArrayAccess(a, i) => ArrayAccess(RenameExpr(a, inStatement), RenameExpr(i, inStatement))
  }

  /** A lambda parameter: its name and the names in its type follow the nearest-ancestor test. */
  function RenameParam(p: Param, inStatement: bool): (r: Param)
    ensures inStatement ==> r.name == Var && TypeCanonical(r.typ)
    ensures !inStatement ==> r == p
  {
    RenameTypeIdempotent(p.typ);
    if inStatement then Param(RenameType(p.typ), Var) else p
  }

  /** A declarator: its name becomes `VAR`, its type is not visited, its initializer is. */
  function RenameDecl(d: Declarator, inStatement: bool): (r: Declarator)
    ensures CanonicalDecl(r, inStatement)
    ensures r.typ == d.typ && r.init.Some? == d.init.Some?
    decreases d, 1
  {
    Declarator(d.typ, Var, if d.init.Some? then Some(RenameExpr(d.init.value, inStatement)) else None)
  }

  /** The visitor on a statement: every expression directly in it has a statement as nearest ancestor. */
  function RenameStmt(s: Stmt): (r: Stmt)
    ensures CanonicalStmt(r)
    decreases s, 0
  {
    match s
    case ExprStmt(e) => ExprStmt(RenameExpr(e, true))
    case Block(ss) => Block(seq(|ss|, i requires 0 <= i < |ss| => RenameStmt(ss[i])))
    case If(c, t, el) => If(RenameExpr(c, true), RenameStmt(t), if el.Some? then Some(RenameStmt(el.value)) else None)
    case While(c, b) => While(RenameExpr(c, true), RenameStmt(b))
    case Do(b, c) => Do(RenameStmt(b), RenameExpr(c, true))
    case For(init, cmp, upd, b) =>
      For(seq(|init|, i requires 0 <= i < |init| => RenameExpr(init[i], true)),
          if cmp.Some? then Some(RenameExpr(cmp.value, true)) else None,
          seq(|upd|, i requires 0 <= i < |upd| => RenameExpr(upd[i], true)),
          RenameStmt(b))
    case ForEach(v, it, b) => ForEach(RenameDecl(v, true), RenameExpr(it, true), RenameStmt(b))
    case Switch(sel, es) => Switch(RenameExpr(sel, true), seq(|es|, i requires 0 <= i < |es| => RenameEntry(es[i])))
    case Break(l) => Break(if l.Some? then Some(Var) else None)
    case Continue(l) => Continue(if l.Some? then Some(Var) else None)
    case Return(e) => Return(if e.Some? then Some(RenameExpr(e.value, true)) else None)
    case Yield(e) => Yield(RenameExpr(e, true))
    case Throw(e) => Throw(RenameExpr(e, true))
    case Try(b, cs, f) =>
      Try(seq(|b|, i requires 0 <= i < |b| => RenameStmt(b[i])),
          seq(|cs|, i requires 0 <= i < |cs| => RenameCatch(cs[i])),
          if f.Some? then Some(RenameStmt(f.value)) else None)
    case Labeled(_, x) => Labeled(Var, RenameStmt(x))
    case Empty => s
  }

  function RenameEntry(en: SwitchEntry): (r: SwitchEntry)
    ensures CanonicalEntry(r)
    decreases en, 1
  {
    SwitchEntry(seq(|en.labels|, i requires 0 <= i < |en.labels| => RenameExpr(en.labels[i], true)),
                seq(|en.body|, i requires 0 <= i < |en.body| => RenameStmt(en.body[i])))
  }

  /** A catch clause: its parameter's name and the names in its types have the try statement as nearest ancestor. */
  function RenameCatch(c: CatchClause): (r: CatchClause)
    ensures CanonicalCatch(r)
    decreases c, 1
  {
    RenameTypesIdempotent(c.types);
    CatchClause(seq(|c.types|, i requires 0 <= i < |c.types| => RenameType(c.types[i])), Var,
                seq(|c.handler|, i requires 0 <= i < |c.handler| => RenameStmt(c.handler[i])))
  }

  lemma RenameTypesIdempotent(ts: seq<string>)
    ensures forall i :: 0 <= i < |ts| ==> TypeCanonical(RenameType(ts[i]))
  {
    forall i | 0 <= i < |ts| { RenameTypeIdempotent(ts[i]); }
  }

  /** A tree that is already canonical is left as it is. */
  lemma {:induction false} RenameCanonical(e: Expr, inStatement: bool)
    requires Canonical(e, inStatement)
    ensures RenameExpr(e, inStatement) == e
    decreases e, 0
  {
    match e
    case Name(_) =>
    case Lit(_, _) =>
    case FieldAccess(s, _) => RenameCanonical(s, false);
    case MethodCall(recv, _, args) =>
      if recv.Some? { RenameCanonical(recv.value, false); }
      forall i | 0 <= i < |args| { RenameCanonical(args[i], false); }
    case MethodRef(s, _) => RenameCanonical(s, false);
    case Binary(_, l, r) => RenameCanonical(l, inStatement); RenameCanonical(r, inStatement);
    case Unary(_, x) => RenameCanonical(x, inStatement);
    case Assign(t, _, v) => RenameCanonical(t, inStatement); RenameCanonical(v, inStatement);
    case Cond(c, a, b) => RenameCanonical(c, inStatement); RenameCanonical(a, inStatement); RenameCanonical(b, inStatement);
    case VarDecl(ds) => forall i | 0 <= i < |ds| { RenameDeclCanonical(ds[i], inStatement); }
    case Lambda(ps, body) =>
      RenameStmtCanonical(body);
      RenameParamsCanonical(ps, inStatement);
    case Enclosed(x) => RenameCanonical(x, inStatement);
    case ArrayAccess(a, i) => RenameCanonical(a, inStatement); RenameCanonical(i, inStatement);
  }

  lemma RenameParamsCanonical(ps: seq<Param>, inStatement: bool)
    requires inStatement ==> forall i :: 0 <= i < |ps| ==> ps[i].name == Var && TypeCanonical(ps[i].typ)
    ensures seq(|ps|, i requires 0 <= i < |ps| => RenameParam(ps[i], inStatement)) == ps
  {
    assert forall i :: 0 <= i < |ps| ==> RenameParam(ps[i], inStatement) == ps[i];
  }

  lemma {:induction false} RenameDeclCanonical(d: Declarator, inStatement: bool)
    requires CanonicalDecl(d, inStatement)
    ensures RenameDecl(d, inStatement) == d
    decreases d, 1
  {
    if d.init.Some? { RenameCanonical(d.init.value, inStatement); }
  }

  lemma {:induction false} RenameStmtCanonical(s: Stmt)
    requires CanonicalStmt(s)
    ensures RenameStmt(s) == s
    decreases s, 1
  {
    if s.Block? || s.For? || s.Switch? || s.Try? {
      RenameListsCanonical(s);
    } else {
      match s
      case ExprStmt(e) => RenameCanonical(e, true);
      case If(c, t, el) =>
        RenameCanonical(c, true); RenameStmtCanonical(t);
        if el.Some? { RenameStmtCanonical(el.value); }
      case While(c, b) => RenameCanonical(c, true); RenameStmtCanonical(b);
      case Do(b, c) => RenameStmtCanonical(b); RenameCanonical(c, true);
      case ForEach(v, it, b) => RenameDeclCanonical(v, true); RenameCanonical(it, true); RenameStmtCanonical(b);
      case Break(_) =>
      case Continue(_) =>
      case Return(e) => if e.Some? { RenameCanonical(e.value, true); }
      case Yield(e) => RenameCanonical(e, true);
      case Throw(e) => RenameCanonical(e, true);
      case Labeled(_, x) => RenameStmtCanonical(x);
      case Empty =>
    }
  }

  /** `RenameStmtCanonical` for the statements that hold lists. */
  lemma {:induction false} RenameListsCanonical(s: Stmt)
    requires s.Block? || s.For? || s.Switch? || s.Try?
    requires CanonicalStmt(s)
    ensures RenameStmt(s) == s
    decreases s, 0
  {
    match s
    case Block(ss) => forall i | 0 <= i < |ss| { RenameStmtCanonical(ss[i]); }
    case For(init, cmp, upd, b) =>
      forall i | 0 <= i < |init| { RenameCanonical(init[i], true); }
      if cmp.Some? { RenameCanonical(cmp.value, true); }
      forall i | 0 <= i < |upd| { RenameCanonical(upd[i], true); }
      RenameStmtCanonical(b);
    case Switch(sel, es) =>
      RenameCanonical(sel, true);
      forall i | 0 <= i < |es| { RenameEntryCanonical(es[i]); }
    case Try(b, cs, f) =>
      forall i | 0 <= i < |b| { RenameStmtCanonical(b[i]); }
      forall i | 0 <= i < |cs| { RenameCatchCanonical(cs[i]); }
      if f.Some? { RenameStmtCanonical(f.value); }
  }

  lemma {:induction false} RenameEntryCanonical(en: SwitchEntry)
    requires CanonicalEntry(en)
    ensures RenameEntry(en) == en
    decreases en, 1
  {
    forall i | 0 <= i < |en.labels| { RenameCanonical(en.labels[i], true); }
    forall i | 0 <= i < |en.body| { RenameStmtCanonical(en.body[i]); }
  }

  lemma {:induction false} RenameCatchCanonical(c: CatchClause)
    requires CanonicalCatch(c)
    ensures RenameCatch(c) == c
    decreases c, 1
  {
    forall i | 0 <= i < |c.handler| { RenameStmtCanonical(c.handler[i]); }
    assert forall i :: 0 <= i < |c.types| ==> RenameType(c.types[i]) == c.types[i];
  }

  /** Renaming twice is renaming once. */
  lemma RenameIdempotent(e: Expr, inStatement: bool)
    ensures RenameExpr(RenameExpr(e, inStatement), inStatement) == RenameExpr(e, inStatement)
  {
    RenameCanonical(RenameExpr(e, inStatement), inStatement);
  }

  lemma RenameStmtIdempotent(s: Stmt)
    ensures RenameStmt(RenameStmt(s)) == RenameStmt(s)
  {
    RenameStmtCanonical(RenameStmt(s));
  }

  /** No declaration and no lambda anywhere in `e`: nothing that introduces a name. */
  predicate BinderFree(e: Expr)
    decreases e
  {
    match e
    case Name(_) => true
    case Lit(_, _) => true
    case FieldAccess(s, _) => BinderFree(s)
    case MethodCall(recv, _, args) =>
      (recv.Some? ==> BinderFree(recv.value)) && forall i :: 0 <= i < |args| ==> BinderFree(args[i])
    case MethodRef(s, _) => BinderFree(s)
    case Binary(_, l, r) => BinderFree(l) && BinderFree(r)
    case Unary(_, x) => BinderFree(x)
    case Assign(t, _, v) => BinderFree(t) && BinderFree(v)
    case Cond(c, a, b) => BinderFree(c) && BinderFree(a) && BinderFree(b)
    case VarDecl(_) => false
    case Lambda(_, _) => false
    case Enclosed(x) => BinderFree(x)
    case ArrayAccess(a, i) => BinderFree(a) && BinderFree(i)
  }

  /** Outside a statement every name of a binder-free expression is kept. */
  lemma {:induction false} BinderFreeCanonical(e: Expr)
    requires BinderFree(e)
    ensures Canonical(e, false)
    decreases e
  {
    match e
    case Name(_) =>
    case Lit(_, _) =>
    case FieldAccess(s, _) => BinderFreeCanonical(s);
    case MethodCall(recv, _, args) =>
      if recv.Some? { BinderFreeCanonical(recv.value); }
      forall i | 0 <= i < |args| { BinderFreeCanonical(args[i]); }
    case MethodRef(s, _) => BinderFreeCanonical(s);
    case Binary(_, l, r) => BinderFreeCanonical(l); BinderFreeCanonical(r);
    case Unary(_, x) => BinderFreeCanonical(x);
    case Assign(t, _, v) => BinderFreeCanonical(t); BinderFreeCanonical(v);
    case Cond(c, a, b) => BinderFreeCanonical(c); BinderFreeCanonical(a); BinderFreeCanonical(b);
    case Enclosed(x) => BinderFreeCanonical(x);
    case ArrayAccess(a, i) => BinderFreeCanonical(a); BinderFreeCanonical(i);
  }

  /**
   * A binder-free expression canonicalized on its own comes back unchanged:
   * with no statement above it, none of its names is renamed.
   */
  lemma StandaloneKept(e: Expr)
    requires BinderFree(e)
    ensures RenameExpr(e, false) == e
  {
    BinderFreeCanonical(e);
    RenameCanonical(e, false);
  }

  /**
   * A call, a field access and a method reference keep their names even
   * inside a statement; only the receiver-free parts outside them change.
   */
  lemma UnderCallKept(recv: Option<Expr>, m: string, args: seq<Expr>)
    requires recv.Some? ==> BinderFree(recv.value)
    requires forall i :: 0 <= i < |args| ==> BinderFree(args[i])
    ensures RenameStmt(ExprStmt(MethodCall(recv, m, args))) == ExprStmt(MethodCall(recv, m, args))
  {
    var call := MethodCall(recv, m, args);
    if recv.Some? { BinderFreeCanonical(recv.value); }
    forall i | 0 <= i < |args| ensures Canonical(args[i], false) { BinderFreeCanonical(args[i]); }
    assert Canonical(call, true);
    RenameCanonical(call, true);
  }

  lemma UnderFieldAccessKept(scope: Expr, field: string)
    requires BinderFree(scope)
    ensures RenameStmt(ExprStmt(FieldAccess(scope, field))) == ExprStmt(FieldAccess(scope, field))
  {
    StandaloneKept(scope);
  }

  /** Directly under a statement a name is always renamed. */
  lemma StatementNameRenamed(id: string)
    ensures RenameStmt(ExprStmt(Name(id))) == ExprStmt(Name(Var))
    ensures RenameStmt(Return(Some(Name(id)))) == Return(Some(Name(Var)))
  {
  }
}
