/**
 * The Java tagger: it turns each method of a compilation unit into the
 * tagged control tree of `ControlTree`. Nested blocks are opened into one
 * list of statements, conditions are split at `&&` and `||`, a switch
 * becomes a chain of case decisions, and a for-each loop is rewritten into
 * an index or an iterator loop whose element assignment heads its body.
 * Every text the tree carries goes through the configured canonicalizer.
 */
module AstTagger {
  import opened Wrappers
  import opened JavaAst
  import opened ControlTree
  import Canonicalizer

  /** The exceptions the tagger can end with. */
  datatype TagError =
    /** UnsupportedOperationException: a block reached the statement builder (a labelled block, or a block directly in a switch entry). */
    | BlockInStatement
    /** UnsupportedOperationException: a for-each over an iterable whose type has other than one type argument. */
    | TypeArgumentCount(count: nat)
    /** UnsupportedOperationException: the one type argument of a for-each iterable is not a reference type. */
    | ArgumentNotReference
    /** UnsupportedOperationException: a for-each whose body is not a block and that has no parent node. */
    | NoParent

  // Sizes, for termination. A for-each weighs more than its body with one
  // more statement wrapped around it, which is what its rewriting builds.

  function Size(s: Stmt): nat
    decreases s, 1
  {
    match s
    case Block(ss) => 1 + SizeAll(ss)
    case If(_, t, e) => 1 + Size(t) + (if e.Some? then Size(e.value) else 0)
    case While(_, b) => 1 + Size(b)
    case Do(b, _) => 1 + Size(b)
    case For(_, _, _, b) => 1 + Size(b)
    case ForEach(_, _, b) => 4 + Size(b)
    case Switch(_, es) => 1 + SizeEntries(es)
    case Try(tb, cs, f) => 2 + SizeAll(tb) + SizeCatches(cs) + (if f.Some? then Size(f.value) else 0)
    case Labeled(_, x) => 1 + Size(x)
    case _ => 1
  }

  function SizeAll(ss: seq<Stmt>): nat
    decreases ss, 0
  {
    if |ss| == 0 then 0 else Size(ss[0]) + SizeAll(ss[1..])
  }

  function SizeEntries(es: seq<SwitchEntry>): nat
    decreases es, 0
  {
    if |es| == 0 then 0 else 1 + SizeAll(es[0].body) + SizeEntries(es[1..])
  }

  function SizeCatches(cs: seq<CatchClause>): nat
    decreases cs, 0
  {
    if |cs| == 0 then 0 else 2 + SizeAll(cs[0].handler) + SizeCatches(cs[1..])
  }

  function OptSize(block: Option<Stmt>): nat
  {
    if block.Some? then Size(block.value) else 0
  }

  lemma {:induction false} SizeAllAppend(a: seq<Stmt>, b: seq<Stmt>)
    ensures SizeAll(a + b) == SizeAll(a) + SizeAll(b)
    decreases |a|
  {
    if |a| == 0 {
      assert a + b == b;
    } else {
      assert (a + b)[1..] == a[1..] + b;
      SizeAllAppend(a[1..], b);
    }
  }

  lemma {:induction false} SizeAllBound(ss: seq<Stmt>, i: nat)
    requires i < |ss|
    ensures Size(ss[i]) <= SizeAll(ss)
    decreases i
  {
    if i > 0 {
      SizeAllBound(ss[1..], i - 1);
    }
  }

  lemma {:induction false} SizeEntriesBound(es: seq<SwitchEntry>, i: nat)
    requires i < |es|
    ensures 1 + SizeAll(es[i].body) <= SizeEntries(es)
    decreases i
  {
    if i > 0 {
      SizeEntriesBound(es[1..], i - 1);
    }
  }

  lemma SwitchEntryBound(sel: Expr, entries: seq<SwitchEntry>, i: nat)
    requires i < |entries|
    ensures 1 + SizeAll(entries[i].body) < Size(Stmt.Switch(sel, entries))
  {
    SizeEntriesBound(entries, i);
  }

  lemma {:induction false} SizeCatchesBound(cs: seq<CatchClause>, i: nat)
    requires i < |cs|
    ensures 2 + SizeAll(cs[i].handler) <= SizeCatches(cs)
    decreases i
  {
    if i > 0 {
      SizeCatchesBound(cs[1..], i - 1);
    }
  }

  // Opening nested blocks

  /** The statements of a block in source order, each nested block replaced by its own statements, recursively. */
  function Flatten(ss: seq<Stmt>): seq<Stmt>
    decreases ss
  {
    if |ss| == 0 then []
    else (if ss[0].Block? then Flatten(ss[0].stmts) else [ss[0]]) + Flatten(ss[1..])
  }

  /** What the block builder lays out for an optional body: nothing, a block's opened statements, or the one statement. */
  function BlockItems(block: Option<Stmt>): seq<Stmt>
  {
    if block.None? then []
    else if block.value.Block? then Flatten(block.value.stmts)
    else [block.value]
  }

  /** `xs` back to front, as `Collections.reverse` leaves it. */
  function Reversed<T>(xs: seq<T>): (r: seq<T>)
    ensures |r| == |xs|
    ensures forall i :: 0 <= i < |xs| ==> r[i] == xs[|xs| - 1 - i]
  {
    if |xs| == 0 then [] else [xs[|xs| - 1]] + Reversed(xs[..|xs| - 1])
  }

  lemma ReversedSnoc<T>(xs: seq<T>, x: T)
    ensures Reversed(xs + [x]) == [x] + Reversed(xs)
  {
    assert (xs + [x])[..|xs|] == xs;
  }

  /** Opening blocks distributes over concatenation, so the order of the statements is kept. */
  lemma {:induction false} FlattenAppend(a: seq<Stmt>, b: seq<Stmt>)
    ensures Flatten(a + b) == Flatten(a) + Flatten(b)
    decreases |a|
  {
    if |a| == 0 {
      assert a + b == b;
    } else {
      assert (a + b)[0] == a[0];
      assert (a + b)[1..] == a[1..] + b;
      FlattenAppend(a[1..], b);
    }
  }

  /** The top of the stack taken off: a block's statements go back on, anything else is laid out last. */
  lemma PopStep(stack: seq<Stmt>)
    requires |stack| > 0
    ensures var s, rest := stack[|stack| - 1], stack[..|stack| - 1];
            && SizeAll(stack) == SizeAll(rest) + Size(s)
            && (s.Block? ==> Flatten(stack) == Flatten(rest + s.stmts) && SizeAll(rest + s.stmts) == SizeAll(rest) + SizeAll(s.stmts))
            && (!s.Block? ==> Flatten(stack) == Flatten(rest) + [s])
  {
    var s, rest := stack[|stack| - 1], stack[..|stack| - 1];
    assert stack == rest + [s];
    FlattenAppend(rest, [s]);
    FlattenCons(s, []);
    SizeAllAppend(rest, [s]);
    assert SizeAll([s]) == Size(s) + SizeAll([s][1..]);
    if s.Block? {
      FlattenAppend(rest, s.stmts);
      SizeAllAppend(rest, s.stmts);
    }
  }

  /** One statement in front: a block gives its opened statements, anything else itself. */
  lemma FlattenCons(x: Stmt, ss: seq<Stmt>)
    ensures Flatten([x] + ss) == (if x.Block? then Flatten(x.stmts) else [x]) + Flatten(ss)
  {
    assert ([x] + ss)[1..] == ss;
  }

  /** No block is left once blocks are opened. */
  lemma {:induction false} FlattenHasNoBlocks(ss: seq<Stmt>)
    ensures forall x | x in Flatten(ss) :: !x.Block?
    decreases ss
  {
    if |ss| > 0 {
      if ss[0].Block? {
        FlattenHasNoBlocks(ss[0].stmts);
      }
      FlattenHasNoBlocks(ss[1..]);
    }
  }

  /** Statements without blocks among them are laid out as they are. */
  lemma {:induction false} FlattenKeepsBlockFree(ss: seq<Stmt>)
    requires forall x | x in ss :: !x.Block?
    ensures Flatten(ss) == ss
    decreases |ss|
  {
    if |ss| > 0 {
      FlattenKeepsBlockFree(ss[1..]);
      assert ss == [ss[0]] + ss[1..];
    }
  }

  /** Opening blocks a second time changes nothing. */
  lemma FlattenIdempotent(ss: seq<Stmt>)
    ensures Flatten(Flatten(ss)) == Flatten(ss)
  {
    FlattenHasNoBlocks(ss);
    FlattenKeepsBlockFree(Flatten(ss));
  }

  lemma {:induction false} FlattenSize(ss: seq<Stmt>)
    ensures SizeAll(Flatten(ss)) <= SizeAll(ss)
    decreases ss
  {
    if |ss| > 0 {
      var head := if ss[0].Block? then Flatten(ss[0].stmts) else [ss[0]];
      if ss[0].Block? {
        FlattenSize(ss[0].stmts);
      } else {
        assert SizeAll([ss[0]]) == Size(ss[0]) + SizeAll([ss[0]][1..]);
      }
      FlattenSize(ss[1..]);
      SizeAllAppend(head, Flatten(ss[1..]));
    }
  }

  /**
   * The stack walk of `buildBlock`: every statement is pushed; a popped block
   * pushes its own statements, any other popped statement is collected; the
   * collected list is reversed at the end. The result is `Flatten`.
   */
  method FlattenBlock(ss: seq<Stmt>) returns (r: seq<Stmt>)
    ensures r == Flatten(ss)
  {
    var stack := ss;
    var collected: seq<Stmt> := [];
    while |stack| > 0
      invariant Flatten(stack) + Reversed(collected) == Flatten(ss)
      decreases SizeAll(stack)
    {
      var s := stack[|stack| - 1];
      var rest := stack[..|stack| - 1];
      PopStep(stack);
      if s.Block? {
        stack := rest + s.stmts;
      } else {
        ReversedSnoc(collected, s);
        stack := rest;
        collected := collected + [s];
      }
    }
    r := Reversed(collected);
  }

  // Conditions. `canon` is the canonicalizer's text of an expression and
  // `transform` the tree it prints from.

  /** `buildCondition`: `&&` and `||` become And and Or of their operands' conditions; anything else is one canonicalized test. */
  function BuildCondition(canon: Expr -> string, e: Expr): (r: Condition)
    ensures NoEmpty(r)
    ensures r.And? <==> e.Binary? && e.op == AndOp
    ensures r.Or? <==> e.Binary? && e.op == OrOp
    ensures r.Unit? ==> r.expr == canon(e)
  {
    if e.Binary? && e.op == AndOp then And(BuildCondition(canon, e.left), BuildCondition(canon, e.right))
    else if e.Binary? && e.op == OrOp then Or(BuildCondition(canon, e.left), BuildCondition(canon, e.right))
    else Unit(canon(e))
  }

  /** The operands of the `&&`/`||` spine of an expression, left to right. */
  function Operands(e: Expr): seq<Expr>
  {
    if e.Binary? && (e.op == AndOp || e.op == OrOp) then Operands(e.left) + Operands(e.right) else [e]
  }

  /** The texts of a condition's tests, left to right. */
  function UnitTexts(c: Condition): seq<string>
  {
    match c
    case And(l, r) => UnitTexts(l) + UnitTexts(r)
    case Or(l, r) => UnitTexts(l) + UnitTexts(r)
    case Unit(t) => [t]
    case Empty => []
  }

  /** The canonical text of each expression, in order. */
  function Canonicals(canon: Expr -> string, es: seq<Expr>): (r: seq<string>)
    ensures |r| == |es| && forall i | 0 <= i < |es| :: r[i] == canon(es[i])
  {
    if |es| == 0 then [] else Canonicals(canon, es[..|es| - 1]) + [canon(es[|es| - 1])]
  }

  /** A condition tree has one test per operand of the spine, holding that operand's canonical text, in order. */
  lemma {:induction false} ConditionTests(canon: Expr -> string, e: Expr)
    ensures UnitTexts(BuildCondition(canon, e)) == Canonicals(canon, Operands(e))
    ensures Atoms(BuildCondition(canon, e)) == |Operands(e)|
  {
    if e.Binary? && (e.op == AndOp || e.op == OrOp) {
      ConditionTests(canon, e.left);
      ConditionTests(canon, e.right);
    }
  }

  /** A condition written back as Java. */
  function RenderCondition(c: Condition): string
  {
    match c
    case And(l, r) => RenderCondition(l) + " && " + RenderCondition(r)
    case Or(l, r) => RenderCondition(l) + " || " + RenderCondition(r)
    case Unit(t) => t
    case Empty => ""
  }

  /** With the printer as canonicalizer (no canonicalization), a condition tree renders back to the expression it was built from. */
  lemma {:induction false} ConditionRoundTrip(canon: Expr -> string, e: Expr)
    requires forall x :: canon(x) == PrintExpr(x)
    ensures RenderCondition(BuildCondition(canon, e)) == PrintExpr(e)
  {
    if e.Binary? && (e.op == AndOp || e.op == OrOp) {
      ConditionRoundTrip(canon, e.left);
      ConditionRoundTrip(canon, e.right);
      RenderJunction(canon, e);
      PrintBinary(e.op, e.left, e.right);
    } else {
      assert BuildCondition(canon, e) == Unit(canon(e));
    }
  }

  lemma RenderJunction(canon: Expr -> string, e: Expr)
    requires e.Binary? && (e.op == AndOp || e.op == OrOp)
    ensures RenderCondition(BuildCondition(canon, e))
            == RenderCondition(BuildCondition(canon, e.left)) + " " + BinOpText(e.op) + " " + RenderCondition(BuildCondition(canon, e.right))
  {
  }

  // Switch cases

  /** `sel == l`, the label as the canonicalizer prints it and the parser reads it back. */
  function CaseTest(transform: Expr -> Expr, sel: Expr, l: Expr): Expr
  {
    Binary(EqualsOp, sel, transform(l))
  }

  /** The tree of the case text `sel == l1 || ... || sel == ln`; `||` groups to the left. */
  function CaseExpr(transform: Expr -> Expr, sel: Expr, labels: seq<Expr>): Expr
    requires |labels| > 0
  {
    if |labels| == 1 then CaseTest(transform, sel, labels[0])
    else Binary(OrOp, CaseExpr(transform, sel, labels[..|labels| - 1]), CaseTest(transform, sel, labels[|labels| - 1]))
  }

  /** `varName == t` for each label text `t`. */
  function Comparisons(varName: string, texts: seq<string>): (r: seq<string>)
    ensures |r| == |texts|
  {
    if |texts| == 0 then [] else Comparisons(varName, texts[..|texts| - 1]) + [varName + " == " + texts[|texts| - 1]]
  }

  lemma {:induction false} JoinSnoc(parts: seq<string>, x: string, sep: string)
    requires |parts| > 0
    ensures Join(parts + [x], sep) == Join(parts, sep) + sep + x
    decreases |parts|
  {
    if |parts| > 1 {
      assert (parts + [x])[1..] == parts[1..] + [x];
      JoinSnoc(parts[1..], x, sep);
    } else {
      assert (parts + [x])[1..] == [x];
    }
  }

  /** The `StringBuilder` loop of `buildSwitchCase`: the comparisons with the selector, joined by `||`. */
  method CaseConditionText(varName: string, labelTexts: seq<string>) returns (t: string)
    requires |labelTexts| > 0
    ensures t == Join(Comparisons(varName, labelTexts), " || ")
  {
    t := varName + " == " + labelTexts[0];
    assert labelTexts[..1][..0] == [];
    var i := 1;
    while i < |labelTexts|
      invariant 1 <= i <= |labelTexts|
      invariant t == Join(Comparisons(varName, labelTexts[..i]), " || ")
    {
      assert labelTexts[..i + 1][..i] == labelTexts[..i];
      JoinSnoc(Comparisons(varName, labelTexts[..i]), varName + " == " + labelTexts[i], " || ");
      t := t + " || " + varName + " == " + labelTexts[i];
      i := i + 1;
    }
    assert labelTexts[..|labelTexts|] == labelTexts;
  }

  lemma PrintBinary(op: BinOp, a: Expr, b: Expr)
    ensures PrintExpr(Binary(op, a, b)) == PrintExpr(a) + " " + BinOpText(op) + " " + PrintExpr(b)
  {
  }

  lemma CaseExprSnoc(transform: Expr -> Expr, sel: Expr, labels: seq<Expr>)
    requires |labels| > 1
    ensures PrintExpr(CaseExpr(transform, sel, labels))
            == PrintExpr(CaseExpr(transform, sel, labels[..|labels| - 1])) + " || "
               + PrintExpr(CaseTest(transform, sel, labels[|labels| - 1]))
  {
    PrintBinary(OrOp, CaseExpr(transform, sel, labels[..|labels| - 1]), CaseTest(transform, sel, labels[|labels| - 1]));
  }

  /**
   * The tree taken as the parse of the case text prints back as exactly that
   * text, when `canon` gives the printing of `transform`.
   */
  lemma {:induction false} CaseExprPrints(canon: Expr -> string, transform: Expr -> Expr, sel: Expr, labels: seq<Expr>)
    requires |labels| > 0
    requires forall i | 0 <= i < |labels| :: canon(labels[i]) == PrintExpr(transform(labels[i]))
    ensures PrintExpr(CaseExpr(transform, sel, labels)) == Join(Comparisons(PrintExpr(sel), Canonicals(canon, labels)), " || ")
    decreases |labels|
  {
    var n := |labels|;
    var p := PrintExpr(sel);
    var texts := Canonicals(canon, labels);
    var last := p + " == " + texts[n - 1];
    PrintBinary(EqualsOp, sel, transform(labels[n - 1]));
    assert PrintExpr(CaseTest(transform, sel, labels[n - 1])) == last;
    assert Comparisons(p, texts) == Comparisons(p, texts[..n - 1]) + [last];
    if n == 1 {
      assert Comparisons(p, texts[..0]) == [];
    } else {
      var front := labels[..n - 1];
      assert texts[..n - 1] == Canonicals(canon, front);
      assert forall i | 0 <= i < |front| :: front[i] == labels[i];
      CaseExprPrints(canon, transform, sel, front);
      JoinSnoc(Comparisons(p, texts[..n - 1]), last, " || ");
      CaseExprSnoc(transform, sel, labels);
    }
  }

  /** Whether some test text holds, scanning from the right. */
  function AnyHolds(texts: seq<string>, env: string -> bool): bool
  {
    |texts| > 0 && (AnyHolds(texts[..|texts| - 1], env) || env(texts[|texts| - 1]))
  }

  lemma {:induction false} AnyHoldsExists(texts: seq<string>, env: string -> bool)
    ensures AnyHolds(texts, env) <==> exists i | 0 <= i < |texts| :: env(texts[i])
    decreases |texts|
  {
    var n := |texts|;
    if n > 0 {
      var front := texts[..n - 1];
      AnyHoldsExists(front, env);
      if exists i | 0 <= i < n :: env(texts[i]) {
        var i :| 0 <= i < n && env(texts[i]);
        if i < n - 1 {
          assert front[i] == texts[i];
        }
      }
      if exists i | 0 <= i < n - 1 :: env(front[i]) {
        var i :| 0 <= i < n - 1 && env(front[i]);
        assert front[i] == texts[i];
      }
    }
  }

  /** The text of each label's test, in order. */
  function TestTexts(canon: Expr -> string, transform: Expr -> Expr, sel: Expr, labels: seq<Expr>): (r: seq<string>)
    ensures |r| == |labels| && forall i | 0 <= i < |labels| :: r[i] == canon(CaseTest(transform, sel, labels[i]))
  {
    if |labels| == 0 then []
    else TestTexts(canon, transform, sel, labels[..|labels| - 1]) + [canon(CaseTest(transform, sel, labels[|labels| - 1]))]
  }

  lemma {:induction false} EvalCaseCondition(canon: Expr -> string, transform: Expr -> Expr, sel: Expr, labels: seq<Expr>, env: string -> bool)
    requires |labels| > 0
    ensures Eval(BuildCondition(canon, CaseExpr(transform, sel, labels)), env) == AnyHolds(TestTexts(canon, transform, sel, labels), env)
    ensures Atoms(BuildCondition(canon, CaseExpr(transform, sel, labels))) == |labels|
    decreases |labels|
  {
    var n := |labels|;
    var test := CaseTest(transform, sel, labels[n - 1]);
    assert BuildCondition(canon, test) == Unit(canon(test));
    var ts := TestTexts(canon, transform, sel, labels);
    if n > 1 {
      var front := labels[..n - 1];
      EvalCaseCondition(canon, transform, sel, front, env);
      assert BuildCondition(canon, CaseExpr(transform, sel, labels))
          == Or(BuildCondition(canon, CaseExpr(transform, sel, front)), Unit(canon(test)));
      assert ts[..n - 1] == TestTexts(canon, transform, sel, front);
    } else {
      assert ts[..0] == [];
    }
  }

  /** A case is taken exactly when one of its label comparisons holds, and it has one test per label. */
  lemma CaseConditionHolds(canon: Expr -> string, transform: Expr -> Expr, sel: Expr, labels: seq<Expr>, env: string -> bool)
    requires |labels| > 0
    ensures Eval(BuildCondition(canon, CaseExpr(transform, sel, labels)), env)
            <==> exists i | 0 <= i < |labels| :: env(canon(CaseTest(transform, sel, labels[i])))
    ensures Atoms(BuildCondition(canon, CaseExpr(transform, sel, labels))) == |labels|
  {
    EvalCaseCondition(canon, transform, sel, labels, env);
    var ts := TestTexts(canon, transform, sel, labels);
    AnyHoldsExists(ts, env);
    if exists i | 0 <= i < |ts| :: env(ts[i]) {
      var i :| 0 <= i < |ts| && env(ts[i]);
      assert env(canon(CaseTest(transform, sel, labels[i])));
    }
  }

  /** What one switch entry becomes: a decision on its condition, or, for a default in last place, a plain block. */
  datatype CaseNode = DecisionCase(condition: Condition, block: seq<AstNode>) | DefaultCase(block: seq<AstNode>)

  /** Every case but the last is a decision, as the switch builder guarantees. */
  predicate WellPlaced(cases: seq<CaseNode>)
  {
    forall i | 0 <= i < |cases| - 1 :: cases[i].DecisionCase?
  }

  /** The nested case nodes of a switch: each decision's else holds the node of the next case. */
  function Chain(cases: seq<CaseNode>): (r: AstNode)
    requires |cases| > 0 && WellPlaced(cases)
    ensures r.nodeType == "SwitchCase" && r.nodeLabel.None? && r.breakable
    decreases |cases|
  {
    match cases[0]
    case DefaultCase(b) => AstNode("SwitchCase", None, true, Contents.Block(b))
    case DecisionCase(c, b) =>
      AstNode("SwitchCase", None, true, DecisionBlock(c, b, if |cases| == 1 then None else Some(Chain(cases[1..]))))
  }

  /** The node reached from `n` by following `i` else links. */
  function FollowElse(n: AstNode, i: nat): Option<AstNode>
    decreases i
  {
    if i == 0 then Some(n)
    else if n.contents.DecisionBlock? && n.contents.elseNode.Some? then FollowElse(n.contents.elseNode.value, i - 1)
    else None
  }

  /**
   * The `i`-th case node sits `i` else links down the chain; it holds the
   * `i`-th case, its else is the next case's node, and the last decision's
   * else is empty.
   */
  lemma {:induction false} ChainLinks(cases: seq<CaseNode>, i: nat)
    requires |cases| > 0 && WellPlaced(cases) && i < |cases|
    ensures WellPlaced(cases[i..])
    ensures FollowElse(Chain(cases), i) == Some(Chain(cases[i..]))
    ensures cases[i].DecisionCase? ==>
              Chain(cases[i..]).contents
              == DecisionBlock(cases[i].condition, cases[i].block, if i == |cases| - 1 then None else Some(Chain(cases[i + 1..])))
    ensures cases[i].DefaultCase? ==> i == |cases| - 1 && Chain(cases[i..]).contents == Contents.Block(cases[i].block)
    decreases i
  {
    assert WellPlaced(cases[i..]) by {
      forall j | 0 <= j < |cases[i..]| - 1 ensures cases[i..][j].DecisionCase? {
        assert cases[i..][j] == cases[i + j];
      }
    }
    if i > 0 {
      assert WellPlaced(cases[1..]) by {
        forall j | 0 <= j < |cases[1..]| - 1 ensures cases[1..][j].DecisionCase? {
          assert cases[1..][j] == cases[1 + j];
        }
      }
      ChainLinks(cases[1..], i - 1);
      assert cases[1..][i - 1..] == cases[i..];
      assert cases[1..][i - 1] == cases[i];
      if i < |cases| - 1 {
        assert cases[1..][i..] == cases[i + 1..];
      }
    } else {
      assert cases[0..] == cases;
    }
    if i < |cases| - 1 {
      assert cases[i..][1..] == cases[i + 1..];
    }
  }

  /** The statements a chain node runs when each test has the truth value `env` gives it. */
  function Select(n: AstNode, env: string -> bool): Option<seq<AstNode>>
  {
    match n.contents
    case DecisionBlock(c, b, e) => if Eval(c, env) then Some(b) else if e.Some? then Select(e.value, env) else None
    case Block(b) => Some(b)
    case _ => None
  }

  /** The first case whose condition holds, or the trailing default. */
  function FirstMatch(cases: seq<CaseNode>, env: string -> bool): Option<seq<AstNode>>
  {
    if |cases| == 0 then None
    else match cases[0]
      case DefaultCase(b) => Some(b)
      case DecisionCase(c, b) => if Eval(c, env) then Some(b) else FirstMatch(cases[1..], env)
  }

  /** Walking the chain runs the first case whose condition holds, as the cases are written. */
  lemma {:induction false} ChainSelects(cases: seq<CaseNode>, env: string -> bool)
    requires |cases| > 0 && WellPlaced(cases)
    ensures Select(Chain(cases), env) == FirstMatch(cases, env)
    decreases |cases|
  {
    if |cases| > 1 && cases[0].DecisionCase? && !Eval(cases[0].condition, env) {
      assert WellPlaced(cases[1..]) by {
        forall j | 0 <= j < |cases[1..]| - 1 ensures cases[1..][j].DecisionCase? {
          assert cases[1..][j] == cases[1 + j];
        }
      }
      ChainSelects(cases[1..], env);
    }
  }

  // The for-each rewritings: the statements and expressions the tagger
  // parses from text, written as the trees the parser reads them as.

  /** Whether a for-each over an iterable of type `t` is rewritten over an index: unresolved, array, non-reference and String types. */
  predicate TakesIndex(t: ResolvedType)
  {
    !t.ReferenceType? || t.className == "String"
  }

  predicate IsString(t: ResolvedType)
  {
    t.ReferenceType? && t.className == "String"
  }

  /** `T v;` */
  function LoopVarDecl(v: Declarator): Stmt
  {
    ExprStmt(VarDecl([Declarator(v.typ, v.name, None)]))
  }

  /** `int indexN = 0;` */
  function IndexInit(n: nat): Stmt
  {
    ExprStmt(VarDecl([Declarator("int", IndexName(n), Some(Lit(IntLit, "0")))]))
  }

  /** `v = (it)[indexN];`, or `v = (it).get(indexN);` over a string. */
  function IndexSet(v: Declarator, it: Expr, n: nat, overString: bool): Stmt
  {
    ExprStmt(Assign(Name(v.name), None,
                    if overString then MethodCall(Some(Enclosed(it)), "get", [Name(IndexName(n))])
                    else ArrayAccess(Enclosed(it), Name(IndexName(n)))))
  }

  /** `indexN++` */
  function IndexUpdate(n: nat): Expr
  {
    Unary(PostIncrement, Name(IndexName(n)))
  }

  /** `indexN < (it).length`, or `indexN < (it).length()` over a string. */
  function IndexTest(it: Expr, n: nat, overString: bool): Expr
  {
    Binary(LessOp, Name(IndexName(n)),
           if overString then MethodCall(Some(Enclosed(it)), "length", []) else FieldAccess(Enclosed(it), "length"))
  }

  /** `Iterator<E> iteratorN = it.iterator();` */
  function IteratorInit(elementType: string, it: Expr, n: nat): Stmt
  {
    ExprStmt(VarDecl([Declarator("Iterator<" + elementType + ">", IteratorName(n), Some(MethodCall(Some(it), "iterator", [])))]))
  }

  /** `v = iteratorN.next();` */
  function IteratorSet(v: Declarator, n: nat): Stmt
  {
    ExprStmt(Assign(Name(v.name), None, MethodCall(Some(Name(IteratorName(n))), "next", [])))
  }

  /** `iteratorN.hasNext()` */
  function IteratorTest(n: nat): Expr
  {
    MethodCall(Some(Name(IteratorName(n))), "hasNext", [])
  }

  /** The declaration of the loop variable prints as `T v;`. */
  lemma LoopVarDeclText(v: Declarator)
    ensures PrintStmt(LoopVarDecl(v)) == v.typ + " " + v.name + ";"
  {
    assert PrintDeclarators([Declarator(v.typ, v.name, None)]) == v.name;
  }

  /** The index declaration prints as `int indexN = 0;`. */
  lemma IndexInitText(n: nat)
    ensures PrintStmt(IndexInit(n)) == "int " + IndexName(n) + " = 0;"
  {
    var d := Declarator("int", IndexName(n), Some(Lit(IntLit, "0")));
    assert PrintDeclarator(d) == IndexName(n) + " = 0";
    assert PrintDeclarators([d]) == IndexName(n) + " = 0";
  }

  /** The element assignment of the index rewriting prints as `v = (it)[indexN];`, or `v = (it).get(indexN);` over a string. */
  lemma IndexSetText(v: Declarator, it: Expr, n: nat, overString: bool)
    ensures PrintStmt(IndexSet(v, it, n, overString))
            == v.name + " = (" + PrintExpr(it) + ")"
               + (if overString then ".get(" + IndexName(n) + ")" else "[" + IndexName(n) + "]") + ";"
  {
    if overString {
      IndexSetStringText(v, it, n);
    } else {
      IndexSetArrayText(v, it, n);
    }
  }

  lemma IndexSetStringText(v: Declarator, it: Expr, n: nat)
    ensures PrintStmt(IndexSet(v, it, n, true)) == v.name + " = (" + PrintExpr(it) + ").get(" + IndexName(n) + ");"
  {
    var idx := Name(IndexName(n));
    EnclosedText(it);
    CallText(Enclosed(it), "get", [idx]);
    assert PrintExprs([idx]) == IndexName(n);
    AssignText(v.name, MethodCall(Some(Enclosed(it)), "get", [idx]));
    GetShape(v.name, PrintExpr(it), IndexName(n));
  }

  lemma IndexSetArrayText(v: Declarator, it: Expr, n: nat)
    ensures PrintStmt(IndexSet(v, it, n, false)) == v.name + " = (" + PrintExpr(it) + ")[" + IndexName(n) + "];"
  {
    var idx := Name(IndexName(n));
    EnclosedText(it);
    ArrayAccessText(Enclosed(it), idx);
    AssignText(v.name, ArrayAccess(Enclosed(it), idx));
    ElementShape(v.name, PrintExpr(it), IndexName(n));
  }

  // How the printer's pieces regroup into the texts above.

  lemma GetShape(a: string, p: string, i: string)
    ensures a + " = " + ("(" + p + ")" + "." + "get" + "(" + i + ")") + ";" == a + " = (" + p + ").get(" + i + ");"
  {
  }

  lemma ElementShape(a: string, p: string, i: string)
    ensures a + " = " + ("(" + p + ")" + "[" + i + "]") + ";" == a + " = (" + p + ")[" + i + "];"
  {
  }

  lemma IteratorShape(e: string, name: string, p: string)
    ensures ("Iterator<" + e + ">") + " " + (name + " = " + (p + "." + "iterator" + "(" + "" + ")")) + ";"
            == "Iterator<" + e + "> " + name + " = " + p + ".iterator();"
  {
  }

  lemma LengthShape(i: string, p: string, overString: bool)
    ensures i + " " + "<" + " " + (if overString then "(" + p + ")" + "." + "length" + "(" + "" + ")" else "(" + p + ")" + "." + "length")
            == i + " < (" + p + ")" + (if overString then ".length()" else ".length")
  {
  }

  lemma VarDeclText(d: Declarator)
    ensures PrintStmt(ExprStmt(VarDecl([d]))) == d.typ + " " + PrintDeclarator(d) + ";"
  {
    assert PrintDeclarators([d]) == PrintDeclarator(d);
  }

  // One printer equation each, so that the texts above need no unfolding of their own.

  lemma EnclosedText(e: Expr)
    ensures PrintExpr(Enclosed(e)) == "(" + PrintExpr(e) + ")"
  {
  }

  lemma CallText(receiver: Expr, m: string, args: seq<Expr>)
    ensures PrintExpr(MethodCall(Some(receiver), m, args)) == PrintExpr(receiver) + "." + m + "(" + PrintExprs(args) + ")"
  {
  }

  lemma ArrayAccessText(a: Expr, i: Expr)
    ensures PrintExpr(ArrayAccess(a, i)) == PrintExpr(a) + "[" + PrintExpr(i) + "]"
  {
  }

  lemma FieldAccessText(e: Expr, f: string)
    ensures PrintExpr(FieldAccess(e, f)) == PrintExpr(e) + "." + f
  {
  }

  /** The index update prints as `indexN++`. */
  lemma IndexUpdateText(n: nat)
    ensures PrintExpr(IndexUpdate(n)) == IndexName(n) + "++"
  {
  }

  lemma AssignText(name: string, value: Expr)
    ensures PrintStmt(ExprStmt(Assign(Name(name), None, value))) == name + " = " + PrintExpr(value) + ";"
  {
    assert PrintExpr(Assign(Name(name), None, value)) == name + " " + "" + "= " + PrintExpr(value);
  }

  /** The index loop's condition prints as `indexN < (it).length`, with `length()` over a string. */
  lemma IndexTestText(it: Expr, n: nat, overString: bool)
    ensures PrintExpr(IndexTest(it, n, overString))
            == IndexName(n) + " < (" + PrintExpr(it) + ")" + (if overString then ".length()" else ".length")
  {
    var bound := if overString then MethodCall(Some(Enclosed(it)), "length", []) else FieldAccess(Enclosed(it), "length");
    EnclosedText(it);
    if overString {
      CallText(Enclosed(it), "length", []);
    } else {
      FieldAccessText(Enclosed(it), "length");
    }
    PrintBinary(LessOp, Name(IndexName(n)), bound);
    assert PrintExprs([]) == "";
    LengthShape(IndexName(n), PrintExpr(it), overString);
  }

  /** The iterator declaration prints as `Iterator<E> iteratorN = it.iterator();`. */
  lemma IteratorInitText(it: Expr, n: nat, elementType: string)
    ensures PrintStmt(IteratorInit(elementType, it, n))
            == "Iterator<" + elementType + "> " + IteratorName(n) + " = " + PrintExpr(it) + ".iterator();"
  {
    var call := MethodCall(Some(it), "iterator", []);
    CallText(it, "iterator", []);
    var d := Declarator("Iterator<" + elementType + ">", IteratorName(n), Some(call));
    assert PrintExprs([]) == "";
    assert PrintDeclarator(d) == IteratorName(n) + " = " + (PrintExpr(it) + "." + "iterator" + "(" + "" + ")");
    VarDeclText(d);
    IteratorShape(elementType, IteratorName(n), PrintExpr(it));
  }

  /** The element assignment of the iterator rewriting prints as `v = iteratorN.next();`. */
  lemma IteratorSetText(v: Declarator, n: nat)
    ensures PrintStmt(IteratorSet(v, n)) == v.name + " = " + IteratorName(n) + ".next();"
  {
    var next := MethodCall(Some(Name(IteratorName(n))), "next", []);
    CallText(Name(IteratorName(n)), "next", []);
    AssignText(v.name, next);
  }

  /** The iterator loop's condition prints as `iteratorN.hasNext()`. */
  lemma IteratorTestText(n: nat)
    ensures PrintExpr(IteratorTest(n)) == IteratorName(n) + ".hasNext()"
  {
  }

  /**
   * `addVarSetToBlock`: the element assignment goes first in a block body;
   * any other body, when the for-each statement has a parent, is wrapped in
   * a new block after the assignment; a for-each statement without a parent
   * makes the tagger give up. Either way the
   * body then lays out as the assignment followed by the old body.
   */
  function AddVarSetToBlock(body: Stmt, varSet: Stmt, hasParent: bool): (r: Result<Stmt, TagError>)
    ensures r.Err? <==> !body.Block? && !hasParent
    ensures r.Err? ==> r.error == NoParent
    ensures r.Ok? ==> r.value.Block?
    ensures r.Ok? && !varSet.Block? ==> BlockItems(Some(r.value)) == [varSet] + BlockItems(Some(body))
    ensures r.Ok? ==> Size(r.value) <= Size(body) + 1 + Size(varSet)
  {
    if body.Block? then
      FlattenCons(varSet, body.stmts);
      SizeAllAppend([varSet], body.stmts);
      assert SizeAll([varSet]) == Size(varSet) + SizeAll([varSet][1..]);
      assert [varSet] + body.stmts == [varSet] + body.stmts;
      Ok(Stmt.Block([varSet] + body.stmts))
    else if hasParent then
      FlattenCons(varSet, [body]);
      FlattenCons(body, []);
      assert SizeAll([body]) == Size(body) + SizeAll([body][1..]);
      assert SizeAll([varSet, body]) == Size(varSet) + SizeAll([varSet, body][1..]);
      assert [varSet, body][1..] == [body];
      Ok(Stmt.Block([varSet, body]))
    else Err(NoParent)
  }

  // What the statement builder does at each node

  /** The statement under the one label the builder removes. */
  function Inner(s: Stmt): Stmt
  {
    if s.Labeled? then s.stmt else s
  }

  function LabelOf(s: Stmt): Option<string>
  {
    if s.Labeled? then Some(s.labelName) else None
  }

  predicate IsLoop(s: Stmt)
  {
    s.While? || s.Do? || s.For? || s.ForEach?
  }

  /** A statement the builder finishes itself, without building nested nodes (a second label is kept as text). */
  predicate IsLeaf(s: Stmt)
  {
    var x := Inner(s);
    !(x.Block? || x.If? || x.While? || x.Do? || x.For? || x.ForEach? || x.Switch? || x.Try?)
  }

  /** JavaParser's class name for each kind of statement. */
  function NodeTypeName(s: Stmt): (r: string)
    ensures r == "BlockStmt" <==> s.Block?
  {
    match s
    case ExprStmt(_) => "ExpressionStmt"
    case Block(_) => "BlockStmt"
    case If(_, _, _) => "IfStmt"
    case While(_, _) => "WhileStmt"
    case Do(_, _) => "DoStmt"
    case For(_, _, _, _) => "ForStmt"
    case ForEach(_, _, _) => "ForEachStmt"
    case Switch(_, _) => "SwitchStmt"
    case Break(_) => "BreakStmt"
    case Continue(_) => "ContinueStmt"
    case Return(_) => "ReturnStmt"
    case Yield(_) => "YieldStmt"
    case Throw(_) => "ThrowStmt"
    case Try(_, _, _) => "TryStmt"
    case Labeled(_, _) => "LabeledStmt"
    case Empty => "EmptyStmt"
  }

  /** Node type, label and breakable mark of a node. */
  function HeadOf(n: AstNode): (string, Option<string>, bool)
  {
    (n.nodeType, n.nodeLabel, n.breakable)
  }

  /**
   * The node type, label and breakable mark the builder gives `s`: its class
   * name and label, breakable for loops; a switch with cases is overwritten
   * by its first case node, which is an unlabelled breakable "SwitchCase".
   */
  function ExpectedHead(s: Stmt): (string, Option<string>, bool)
  {
    var x := Inner(s);
    if x.Switch? && |x.entries| > 0 then ("SwitchCase", None, true)
    else (NodeTypeName(x), LabelOf(s), IsLoop(x))
  }

  /** The for-each loops under `s` the tagger visits and rewrites over an index (`index`) or an iterator. */
  function Counted(resolve: Expr -> ResolvedType, s: Stmt, index: bool): nat
    decreases s, 1
  {
    match s
    case Block(ss) => CountedAll(resolve, ss, index)
    case If(_, t, e) => Counted(resolve, t, index) + (if e.Some? then Counted(resolve, e.value, index) else 0)
    case While(_, b) => Counted(resolve, b, index)
    case Do(b, _) => Counted(resolve, b, index)
    case For(_, _, _, b) => Counted(resolve, b, index)
    case ForEach(_, it, b) => (if TakesIndex(resolve(it)) == index then 1 else 0) + Counted(resolve, b, index)
    case Switch(_, es) => CountedEntries(resolve, es, index)
    case Try(tb, cs, f) =>
      CountedAll(resolve, tb, index) + CountedCatches(resolve, cs, index) + (if f.Some? then Counted(resolve, f.value, index) else 0)
    case Labeled(_, x) => if x.Labeled? then 0 else Counted(resolve, x, index)
    case _ => 0
  }

  function CountedAll(resolve: Expr -> ResolvedType, ss: seq<Stmt>, index: bool): nat
    decreases ss, 0
  {
    if |ss| == 0 then 0 else CountedAll(resolve, ss[..|ss| - 1], index) + Counted(resolve, ss[|ss| - 1], index)
  }

  function CountedEntries(resolve: Expr -> ResolvedType, es: seq<SwitchEntry>, index: bool): nat
    decreases es, 0
  {
    if |es| == 0 then 0 else CountedEntries(resolve, es[..|es| - 1], index) + CountedAll(resolve, es[|es| - 1].body, index)
  }

  function CountedCatches(resolve: Expr -> ResolvedType, cs: seq<CatchClause>, index: bool): nat
    decreases cs, 0
  {
    if |cs| == 0 then 0 else CountedCatches(resolve, cs[..|cs| - 1], index) + CountedAll(resolve, cs[|cs| - 1].handler, index)
  }

  function CountedOpt(resolve: Expr -> ResolvedType, block: Option<Stmt>, index: bool): nat
  {
    if block.Some? then Counted(resolve, block.value, index) else 0
  }

  lemma {:induction false} CountedAllAppend(resolve: Expr -> ResolvedType, a: seq<Stmt>, b: seq<Stmt>, index: bool)
    ensures CountedAll(resolve, a + b, index) == CountedAll(resolve, a, index) + CountedAll(resolve, b, index)
    decreases |b|
  {
    if |b| == 0 {
      assert a + b == a;
    } else {
      assert (a + b)[..|a + b| - 1] == a + b[..|b| - 1];
      assert (a + b)[|a + b| - 1] == b[|b| - 1];
      CountedAllAppend(resolve, a, b[..|b| - 1], index);
    }
  }

  /** A leaf holds no for-each; any other statement holds those of what is under its one label. */
  /** One more switch entry adds its body's count, for both counters at once. */
  lemma CountedEntriesSnoc(resolve: Expr -> ResolvedType, es: seq<SwitchEntry>, i: nat)
    requires i < |es|
    ensures CountedEntries(resolve, es[..i + 1], true) == CountedEntries(resolve, es[..i], true) + CountedAll(resolve, es[i].body, true)
    ensures CountedEntries(resolve, es[..i + 1], false) == CountedEntries(resolve, es[..i], false) + CountedAll(resolve, es[i].body, false)
  {
    assert es[..i + 1][..i] == es[..i];
  }

  lemma CountedUnderLabel(resolve: Expr -> ResolvedType, s: Stmt, index: bool)
    ensures IsLeaf(s) ==> Counted(resolve, s, index) == 0
    ensures !IsLeaf(s) ==> Counted(resolve, s, index) == Counted(resolve, Inner(s), index)
  {
  }

  lemma CountedOne(resolve: Expr -> ResolvedType, x: Stmt, index: bool)
    ensures CountedAll(resolve, [x], index) == Counted(resolve, x, index)
  {
    assert [x][..0] == [];
  }

  /** Opening blocks neither adds nor loses a for-each. */
  lemma {:induction false} CountedFlatten(resolve: Expr -> ResolvedType, ss: seq<Stmt>, index: bool)
    ensures CountedAll(resolve, Flatten(ss), index) == CountedAll(resolve, ss, index)
    decreases ss
  {
    if |ss| > 0 {
      var head := if ss[0].Block? then Flatten(ss[0].stmts) else [ss[0]];
      if ss[0].Block? {
        CountedFlatten(resolve, ss[0].stmts, index);
      }
      CountedOne(resolve, ss[0], index);
      CountedFlatten(resolve, ss[1..], index);
      CountedAllAppend(resolve, head, Flatten(ss[1..]), index);
      assert ss == [ss[0]] + ss[1..];
      CountedAllAppend(resolve, [ss[0]], ss[1..], index);
    }
  }

  /** The statements a body lays out into hold the for-each loops of the body. */
  lemma CountedItems(resolve: Expr -> ResolvedType, block: Option<Stmt>, index: bool)
    ensures CountedAll(resolve, BlockItems(block), index) == CountedOpt(resolve, block, index)
  {
    if block.Some? {
      if block.value.Block? {
        CountedFlatten(resolve, block.value.stmts, index);
      } else {
        CountedOne(resolve, block.value, index);
      }
    }
  }

  /** The rewritten body holds the same for-each loops as the body. */
  lemma CountedAfterVarSet(resolve: Expr -> ResolvedType, body: Stmt, newBody: Stmt, varSet: Stmt, index: bool)
    requires varSet.ExprStmt?
    requires BlockItems(Some(newBody)) == [varSet] + BlockItems(Some(body))
    ensures Counted(resolve, newBody, index) == Counted(resolve, body, index)
  {
    CountedItems(resolve, Some(newBody), index);
    CountedItems(resolve, Some(body), index);
    CountedAllAppend(resolve, [varSet], BlockItems(Some(body)), index);
    CountedOne(resolve, varSet, index);
  }

  // Method namespaces

  /** The pieces between the dots of `s`: `n` dots give `n + 1` pieces. */
  function Pieces(s: string): (r: seq<string>)
    ensures |r| >= 1
    decreases |s|
  {
    if |s| == 0 then [""]
    else
      var rest := Pieces(s[1..]);
      if s[0] == '.' then [""] + rest else [[s[0]] + rest[0]] + rest[1..]
  }

  function DropTrailingEmpty(ps: seq<string>): (r: seq<string>)
    ensures |r| <= |ps| && r == ps[..|r|]
    ensures |r| > 0 ==> r[|r| - 1] != ""
    decreases |ps|
  {
    if |ps| == 0 || ps[|ps| - 1] != "" then ps else DropTrailingEmpty(ps[..|ps| - 1])
  }

  /** Java's `split("\\.")`: a string without a dot is its own only piece; otherwise trailing empty pieces are dropped. */
  function SplitOnDots(s: string): seq<string>
  {
    if '.' !in s then [s] else DropTrailingEmpty(Pieces(s))
  }

  lemma {:induction false} PiecesDotFree(p: string)
    requires '.' !in p
    ensures Pieces(p) == [p]
    decreases |p|
  {
    if |p| > 0 {
      PiecesDotFree(p[1..]);
      assert [p[0]] + p[1..] == p;
    }
  }

  lemma {:induction false} PiecesAfterPiece(p: string, rest: string)
    requires '.' !in p
    ensures Pieces(p + "." + rest) == [p] + Pieces(rest)
    decreases |p|
  {
    if |p| == 0 {
      assert p + "." + rest == "." + rest;
      assert ("." + rest)[1..] == rest;
    } else {
      assert (p + "." + rest)[1..] == p[1..] + "." + rest;
      assert (p + "." + rest)[0] == p[0];
      PiecesAfterPiece(p[1..], rest);
      assert [p[0]] + p[1..] == p;
    }
  }

  lemma {:induction false} PiecesOfJoin(parts: seq<string>)
    requires |parts| > 0 && forall i | 0 <= i < |parts| :: '.' !in parts[i]
    ensures Pieces(Join(parts, ".")) == parts
    decreases |parts|
  {
    if |parts| == 1 {
      PiecesDotFree(parts[0]);
    } else {
      PiecesOfJoin(parts[1..]);
      PiecesAfterPiece(parts[0], Join(parts[1..], "."));
      assert parts == [parts[0]] + parts[1..];
    }
  }

  /**
   * A qualified name splits back into its parts when they are non-empty and
   * dot-free; no dot gives the whole string, and a name that is only dots
   * gives no pieces at all.
   */
  lemma SplitJoin(parts: seq<string>)
    requires |parts| > 0 && forall i | 0 <= i < |parts| :: '.' !in parts[i] && parts[i] != ""
    ensures SplitOnDots(Join(parts, ".")) == parts
    ensures SplitOnDots("") == [""]
    ensures SplitOnDots("..") == []
  {
    PiecesOfJoin(parts);
    if |parts| > 1 {
      assert Join(parts, ".")[|parts[0]|] == '.';
    } else {
      PiecesDotFree(parts[0]);
    }
    assert ".."[1..] == ".";
    assert "."[1..] == "";
  }

  // The tagger

  /** An argument of `buildTextList`: an expression or a statement. */
  datatype TextNode = ExprNode(e: Expr) | StmtNode(s: Stmt)

  function ExprNodes(es: seq<Expr>): (r: seq<TextNode>)
    ensures |r| == |es| && forall i | 0 <= i < |es| :: r[i] == ExprNode(es[i])
  {
    if |es| == 0 then [] else [ExprNode(es[0])] + ExprNodes(es[1..])
  }

  /** A class of the compilation unit, in the order `findAll` meets them, with its fully qualified name when it has one. */
  datatype ClassDecl = ClassDecl(isInterface: bool, qualifiedName: Option<string>, methods: seq<Method>)

  /** The tagged message: the program id, one function node per method, and the unit's text in debug mode. */
  datatype TaggedMessage = TaggedMessage(programId: string, methods: seq<AstNode>, debug: Option<string>)

  /** The methods the tagger visits with their namespaces: those of every class that is not an interface, in order. */
  function CollectMethods(classes: seq<ClassDecl>): (r: seq<(string, Method)>)
  {
    if |classes| == 0 then []
    else
      var c := classes[|classes| - 1];
      CollectMethods(classes[..|classes| - 1])
      + (if c.isInterface then [] else ClassMethods(if c.qualifiedName.Some? then c.qualifiedName.value else "", c.methods))
  }

  function ClassMethods(namespace: string, ms: seq<Method>): (r: seq<(string, Method)>)
    ensures |r| == |ms| && forall i | 0 <= i < |ms| :: r[i] == (namespace, ms[i])
  {
    if |ms| == 0 then [] else [(namespace, ms[0])] + ClassMethods(namespace, ms[1..])
  }

  /** An interface contributes no method, and a class contributes its methods under its name (or "" without one). */
  lemma CollectLast(classes: seq<ClassDecl>, c: ClassDecl)
    ensures c.isInterface ==> CollectMethods(classes + [c]) == CollectMethods(classes)
    ensures !c.isInterface ==> |CollectMethods(classes + [c])| == |CollectMethods(classes)| + |c.methods|
    ensures !c.isInterface ==> forall i | 0 <= i < |c.methods| ::
              CollectMethods(classes + [c])[|CollectMethods(classes)| + i]
              == (if c.qualifiedName.Some? then c.qualifiedName.value else "", c.methods[i])
  {
    assert (classes + [c])[..|classes|] == classes;
  }

  function MethodBody(m: Method): Option<Stmt>
  {
    if m.body.Some? then Some(Stmt.Block(m.body.value)) else None
  }

  class Tagger {
    /** Which canonicalizer the tagger was configured with. */
    const kind: Canonicalizer.Kind
    /** The canonicalizer's visitors on a detached copy of an expression. */
    const transform: Expr -> Expr
    /** The canonicalizer's text of an expression. */
    const canonicalize: Expr -> string
    /** The canonicalizer's text of a statement. */
    const canonicalizeStmt: Stmt -> string
    /** Symbol resolution of a for-each iterable's type. */
    const resolveIterable: Expr -> ResolvedType
    /** Resolution of a caught type name: its description and those of its ancestor classes, or None when it is unsolved. */
    const resolveCaught: string -> Option<(string, seq<string>)>
    /** Resolution of a thrown expression's type, as for caught types; None when resolution fails. */
    const resolveThrown: Expr -> Option<(string, seq<string>)>
    var numIndexes: nat
    var numIterators: nat

    /** The canonicalizer is the one of `kind`. */
    ghost predicate Configured()
    {
      && (forall e :: transform(e) == Canonicalizer.TransformExpr(kind, e))
      && (forall e :: canonicalize(e) == Canonicalizer.CanonicalizeExpr(kind, e))
      && (forall s :: canonicalizeStmt(s) == Canonicalizer.CanonicalizeStmt(kind, s))
    }

    constructor (kind: Canonicalizer.Kind, resolveIterable: Expr -> ResolvedType,
                 resolveCaught: string -> Option<(string, seq<string>)>, resolveThrown: Expr -> Option<(string, seq<string>)>)
      ensures this.kind == kind && Configured()
      ensures this.resolveIterable == resolveIterable
      ensures this.resolveCaught == resolveCaught && this.resolveThrown == resolveThrown
      ensures numIndexes == 0 && numIterators == 0
    {
      this.kind := kind;
      this.transform := e => Canonicalizer.TransformExpr(kind, e);
      this.canonicalize := e => Canonicalizer.CanonicalizeExpr(kind, e);
      this.canonicalizeStmt := s => Canonicalizer.CanonicalizeStmt(kind, s);
      this.resolveIterable := resolveIterable;
      this.resolveCaught := resolveCaught;
      this.resolveThrown := resolveThrown;
      numIndexes := 0;
      numIterators := 0;
    }

    /** The text of an expression is the printing of its transformed copy. */
    lemma CanonicalizePrints(e: Expr)
      requires Configured()
      ensures canonicalize(e) == PrintExpr(transform(e))
    {
    }

    /** A default case that is not last is decided on the single test `true`, whatever the canonicalizer. */
    lemma DefaultCaseCondition()
      requires Configured()
      ensures BuildCondition(canonicalize, Lit(BoolLit, "true")) == Unit("true")
    {
      Canonicalizer.TrueLiteral(kind);
    }

    /** Every canonicalizer keeps a parameter as its type, a space and its name. */
    lemma ParamKept(p: Param)
      requires Configured()
      ensures p.typ + " " + canonicalize(Name(p.name)) == p.typ + " " + p.name
    {
      Canonicalizer.ParamKeepsName(kind, p);
    }

    /** The case condition's tree prints as the text `buildSwitchCase` assembles from the canonicalized labels. */
    lemma CaseTextParses(sel: Expr, labels: seq<Expr>)
      requires Configured() && |labels| > 0
      ensures PrintExpr(CaseExpr(transform, sel, labels)) == Join(Comparisons(PrintExpr(sel), Canonicals(canonicalize, labels)), " || ")
    {
      CaseExprPrints(canonicalize, transform, sel, labels);
    }

    function TextOf(n: TextNode): string
    {
      match n
      case ExprNode(e) => canonicalize(e)
      case StmtNode(s) => canonicalizeStmt(s)
    }

    predicate TextsOf(texts: seq<string>, nodes: seq<TextNode>)
    {
      |texts| == |nodes| && forall i | 0 <= i < |nodes| :: texts[i] == TextOf(nodes[i])
    }

    /** The exception types of a thrown expression: its type and its ancestors, or the expression's own text when resolution fails. */
    function ThrownTypes(e: Expr): (r: seq<string>)
      ensures |r| >= 1
      ensures resolveThrown(e).None? ==> r == [PrintExpr(e)]
    {
      match resolveThrown(e)
      case Some((d, ancestors)) => [d] + ancestors
      case None => [PrintExpr(e)]
    }

    /** The exception types of a catch clause's alternatives, each resolved to itself and its ancestors, or kept as written when unsolved. */
    function CaughtTypes(ts: seq<string>): (r: seq<string>)
      ensures |r| >= |ts|
      ensures (forall i | 0 <= i < |ts| :: resolveCaught(ts[i]).None?) ==> r == ts
    {
      if |ts| == 0 then []
      else
        (match resolveCaught(ts[0])
         case Some((d, ancestors)) => [d] + ancestors
         case None => [ts[0]])
        + CaughtTypes(ts[1..])
    }

    /** The contents of a statement the builder finishes itself. */
    function LeafContents(x: Stmt): Contents
    {
      match x
      case Break(l) => BreakStatement(l)
      case Continue(l) => ContinueStatement(l)
      case Return(e) => ReturnStatement(if e.Some? then Some(canonicalize(e.value)) else None)
      case Throw(e) => ThrowStatement(PrintStmt(x), ThrownTypes(e))
      case _ => Statement(canonicalizeStmt(x))
    }

    function LeafNode(s: Stmt): AstNode
    {
      AstNode(NodeTypeName(Inner(s)), LabelOf(s), false, LeafContents(Inner(s)))
    }

    /** `n` is what the builder makes of `s`: never of a block, with the expected head, and exactly the leaf node for a leaf. */
    predicate Fits(n: AstNode, s: Stmt)
    {
      && !Inner(s).Block?
      && HeadOf(n) == ExpectedHead(s)
      && (IsLeaf(s) ==> n == LeafNode(s))
    }

    predicate Built(nodes: seq<AstNode>, items: seq<Stmt>)
    {
      |nodes| == |items| && forall i | 0 <= i < |items| :: Fits(nodes[i], items[i])
    }

    lemma BuiltSnoc(nodes: seq<AstNode>, items: seq<Stmt>, n: AstNode, x: Stmt)
      requires Built(nodes, items) && Fits(n, x)
      ensures Built(nodes + [n], items + [x])
    {
    }

    /** No node the block builder lays out is a block. */
    lemma BuiltHasNoBlocks(nodes: seq<AstNode>, items: seq<Stmt>)
      requires Built(nodes, items)
      ensures forall i | 0 <= i < |nodes| :: nodes[i].nodeType != "BlockStmt"
    {
      forall i | 0 <= i < |nodes| ensures nodes[i].nodeType != "BlockStmt" {
        assert Fits(nodes[i], items[i]);
      }
    }

    /** `buildTextList`: one text per node, in order, each the node's canonical rendering. */
    method BuildTextList(nodes: seq<TextNode>) returns (texts: seq<string>)
      ensures TextsOf(texts, nodes)
    {
      texts := [];
      var i := 0;
      while i < |nodes|
        invariant 0 <= i <= |nodes|
        invariant |texts| == i && forall j | 0 <= j < i :: texts[j] == TextOf(nodes[j])
      {
        texts := texts + [TextOf(nodes[i])];
        i := i + 1;
      }
    }

    /** The parameters of a method, each as its type, a space and its canonicalized name (which `ParamKept` shows is the name). */
    method CanonicalizeParams(ps: seq<Param>) returns (texts: seq<string>)
      ensures |texts| == |ps|
      ensures forall i | 0 <= i < |ps| :: texts[i] == ps[i].typ + " " + canonicalize(Name(ps[i].name))
    {
      texts := [];
      var i := 0;
      while i < |ps|
        invariant 0 <= i <= |ps|
        invariant |texts| == i && forall j | 0 <= j < i :: texts[j] == ps[j].typ + " " + canonicalize(Name(ps[j].name))
      {
        texts := texts + [ps[i].typ + " " + canonicalize(Name(ps[i].name))];
        i := i + 1;
      }
    }

    /** The whole message: every collected method built in order, the program id, and the unit's text in debug mode only. */
    method BuildTaggedAstMessage(classes: seq<ClassDecl>, programId: string, debugMode: bool, unitText: string)
      returns (r: Result<TaggedMessage, TagError>)
      modifies this
      ensures r.Ok? ==> r.value.programId == programId
      ensures r.Ok? ==> r.value.debug == (if debugMode then Some(unitText) else None)
      ensures r.Ok? ==> |r.value.methods| == |CollectMethods(classes)|
      ensures r.Ok? ==> forall i | 0 <= i < |r.value.methods| ::
                var (ns, m) := CollectMethods(classes)[i];
                && r.value.methods[i].contents.FunctionBlock?
                && r.value.methods[i].contents.name == Some(m.name)
                && r.value.methods[i].contents.namespace == SplitOnDots(ns)
    {
      var methods := CollectMethods(classes);
      var built: seq<AstNode> := [];
      var i := 0;
      while i < |methods|
        invariant 0 <= i <= |methods| && |built| == i
        invariant forall j | 0 <= j < i ::
                    && built[j].contents.FunctionBlock?
                    && built[j].contents.name == Some(methods[j].1.name)
                    && built[j].contents.namespace == SplitOnDots(methods[j].0)
      {
        var n :- BuildMethod(methods[i].1, methods[i].0);
        built := built + [n];
        i := i + 1;
      }
      r := Ok(TaggedMessage(programId, built, if debugMode then Some(unitText) else None));
    }

    /** `buildMethod`: a function node named after the method, under its split namespace, with its body laid out and its parameters. */
    method BuildMethod(m: Method, namespace: string) returns (r: Result<AstNode, TagError>)
      modifies this
      ensures r.Ok? ==> r.value.nodeType == "MethodDeclaration" && r.value.nodeLabel.None? && !r.value.breakable
      ensures r.Ok? ==> r.value.contents.FunctionBlock?
      ensures r.Ok? ==> r.value.contents.name == Some(m.name) && r.value.contents.namespace == SplitOnDots(namespace)
      ensures r.Ok? ==> |r.value.contents.parameters| == |m.params|
      ensures r.Ok? ==> forall i | 0 <= i < |m.params| :: r.value.contents.parameters[i] == m.params[i].typ + " " + canonicalize(Name(m.params[i].name))
      ensures r.Ok? ==> Built(r.value.contents.block, BlockItems(MethodBody(m)))
      ensures m.body.None? ==> r.Ok? && r.value.contents.block == []
      ensures r.Ok? ==> numIndexes == old(numIndexes) + CountedOpt(resolveIterable, MethodBody(m), true)
      ensures r.Ok? ==> numIterators == old(numIterators) + CountedOpt(resolveIterable, MethodBody(m), false)
    {
      var ns := SplitOnDots(namespace);
      var block :- BuildBlock(MethodBody(m));
      var params := CanonicalizeParams(m.params);
      r := Ok(AstNode("MethodDeclaration", None, false, FunctionBlock(Some(m.name), ns, params, block)));
    }

    /**
     * `buildBlock`: no body gives no nodes, a block gives one node per
     * statement of its opened form, and any other statement one node.
     */
    method BuildBlock(block: Option<Stmt>) returns (r: Result<seq<AstNode>, TagError>)
      modifies this
      decreases OptSize(block), 4
      ensures block.None? ==> r == Ok([])
      ensures r.Ok? ==> Built(r.value, BlockItems(block))
      ensures r.Ok? ==> numIndexes == old(numIndexes) + CountedOpt(resolveIterable, block, true)
      ensures r.Ok? ==> numIterators == old(numIterators) + CountedOpt(resolveIterable, block, false)
    {
      if block.None? {
        return Ok([]);
      }
      var items: seq<Stmt>;
      if block.value.Block? {
        items := FlattenBlock(block.value.stmts);
        FlattenSize(block.value.stmts);
      } else {
        items := [block.value];
        assert SizeAll(items) == Size(block.value) + SizeAll(items[1..]);
      }
      CountedItems(resolveIterable, block, true);
      CountedItems(resolveIterable, block, false);
      r := BuildStatements(items);
    }

    /** `buildSwitchBlock`, and the second half of `buildBlock`: one node per statement, in order, without opening blocks. */
    method BuildStatements(ss: seq<Stmt>) returns (r: Result<seq<AstNode>, TagError>)
      modifies this
      decreases SizeAll(ss), 3
      ensures r.Ok? ==> Built(r.value, ss)
      ensures r.Ok? ==> numIndexes == old(numIndexes) + CountedAll(resolveIterable, ss, true)
      ensures r.Ok? ==> numIterators == old(numIterators) + CountedAll(resolveIterable, ss, false)
    {
      var nodes: seq<AstNode> := [];
      var i := 0;
      while i < |ss|
        invariant 0 <= i <= |ss| && |nodes| == i
        invariant Built(nodes, ss[..i])
        invariant numIndexes == old(numIndexes) + CountedAll(resolveIterable, ss[..i], true)
        invariant numIterators == old(numIterators) + CountedAll(resolveIterable, ss[..i], false)
      {
        SizeAllBound(ss, i);
        var n :- BuildStatement(ss[i]);
        assert ss[..i + 1] == ss[..i] + [ss[i]];
        BuiltSnoc(nodes, ss[..i], n, ss[i]);
        nodes := nodes + [n];
        i := i + 1;
      }
      assert ss[..|ss|] == ss;
      r := Ok(nodes);
    }

    /**
     * `buildStatement`: the one label is taken off, the node gets the
     * statement's class name, and the statement goes to its handler; a block
     * here is an error.
     */
    method BuildStatement(s: Stmt) returns (r: Result<AstNode, TagError>)
      modifies this
      decreases Size(s), 2
      ensures Inner(s).Block? ==> r == Err(BlockInStatement)
      ensures r.Ok? ==> Fits(r.value, s)
      ensures r.Ok? ==> numIndexes == old(numIndexes) + Counted(resolveIterable, s, true)
      ensures r.Ok? ==> numIterators == old(numIterators) + Counted(resolveIterable, s, false)
      ensures r.Ok? && !IsLeaf(s) && !Inner(s).Switch? ==> NestedFits(r.value.contents, Inner(s))
    {
      var lbl := LabelOf(s);
      var x := Inner(s);
      CountedUnderLabel(resolveIterable, s, true);
      CountedUnderLabel(resolveIterable, s, false);
      if x.Block? {
        return Err(BlockInStatement);
      }
      if x.Switch? {
        ghost var cases;
        r, cases := BuildSwitch(x.selector, x.entries, lbl);
        return;
      }
      if IsLeaf(s) {
        return Ok(LeafNode(s));
      }
      var contents :- BuildNested(x);
      r := Ok(AstNode(NodeTypeName(x), lbl, IsLoop(x), contents));
    }

    /**
     * What the handlers of loops and ifs build: a loop node that checks
     * first for all but `do`, with the loop's condition tree (Empty for a
     * `for` without one), the texts of a `for`'s initializations and updates,
     * and its body laid out; an if node on the if's condition tree.
     */
    predicate NestedFits(c: Contents, x: Stmt)
    {
      && (IsLoop(x) ==> c.LoopBlock? && (c.firstIterationConditionCheck <==> !x.Do?))
      && ((x.While? || x.Do?) ==>
            && c.condition == BuildCondition(canonicalize, x.cond)
            && c.initialization == [] && c.update == []
            && Built(c.block, BlockItems(Some(x.body))))
      && (x.For? ==>
            && c.condition == (if x.compare.Some? then BuildCondition(canonicalize, x.compare.value) else Condition.Empty)
            && TextsOf(c.initialization, ExprNodes(x.init))
            && TextsOf(c.update, ExprNodes(x.update))
            && Built(c.block, BlockItems(Some(x.body))))
      && (x.If? ==> c.DecisionBlock? && c.condition == BuildCondition(canonicalize, x.cond))
      && (x.Try? ==> c.TryBlock?)
    }

    /** The handlers of the statements with nested statements other than switches. */
    method BuildNested(x: Stmt) returns (r: Result<Contents, TagError>)
      requires IsLoop(x) || x.If? || x.Try?
      modifies this
      decreases Size(x), 1
      ensures r.Ok? ==> NestedFits(r.value, x)
      ensures r.Ok? ==> numIndexes == old(numIndexes) + Counted(resolveIterable, x, true)
      ensures r.Ok? ==> numIterators == old(numIterators) + Counted(resolveIterable, x, false)
    {
      match x {
        case Do(b, c) =>
          r := BuildLoop(b, Some(c), [], [], false);
        case ForEach(v, it, b) =>
          r := BuildForEach(v, it, b);
        case For(init, cmp, upd, b) =>
          r := BuildLoop(b, cmp, ExprNodes(init), ExprNodes(upd), true);
        case While(c, b) =>
          r := BuildLoop(b, Some(c), [], [], true);
        case If(c, t, e) =>
          r := BuildIf(c, t, e);
        case Try(tb, cs, f) =>
          r := BuildTry(tb, cs, f);
      }
    }

    /**
     * `buildLoopBlock`: a loop node with its first-iteration check, its body
     * laid out, its condition (Empty when there is none), and the texts of
     * its initializations and updates.
     */
    method BuildLoop(body: Stmt, condition: Option<Expr>, initialization: seq<TextNode>, update: seq<TextNode>, firstCheck: bool)
      returns (r: Result<Contents, TagError>)
      modifies this
      decreases Size(body) + 1, 0
      ensures r.Ok? ==> r.value.LoopBlock? && r.value.firstIterationConditionCheck == firstCheck
      ensures r.Ok? ==> Built(r.value.block, BlockItems(Some(body)))
      ensures r.Ok? ==> r.value.condition == if condition.Some? then BuildCondition(canonicalize, condition.value) else Condition.Empty
      ensures r.Ok? ==> TextsOf(r.value.initialization, initialization) && TextsOf(r.value.update, update)
      ensures r.Ok? ==> numIndexes == old(numIndexes) + Counted(resolveIterable, body, true)
      ensures r.Ok? ==> numIterators == old(numIterators) + Counted(resolveIterable, body, false)
    {
      var block :- BuildBlock(Some(body));
      var cond := if condition.Some? then BuildCondition(canonicalize, condition.value) else Condition.Empty;
      var init := BuildTextList(initialization);
      var upd := BuildTextList(update);
      r := Ok(LoopBlock(firstCheck, block, cond, init, upd));
    }

    /**
     * `buildForEachStmt`: over an index for unresolved, array, primitive and
     * String iterables, over an iterator otherwise (which needs exactly one
     * type argument, itself a reference type). The counter of the chosen kind names the new variable
     * and goes up by one before the body is built.
     */
    method BuildForEach(v: Declarator, it: Expr, body: Stmt) returns (r: Result<Contents, TagError>)
      modifies this
      decreases Size(Stmt.ForEach(v, it, body)), 0
      ensures var t := resolveIterable(it);
              !TakesIndex(t) && |t.typeArguments| != 1 ==> r == Err(TypeArgumentCount(|t.typeArguments|))
      ensures var t := resolveIterable(it);
              !TakesIndex(t) && |t.typeArguments| == 1 && t.typeArguments[0].OtherArgument? ==> r == Err(ArgumentNotReference)
      ensures r.Ok? ==> r.value.LoopBlock? && r.value.firstIterationConditionCheck
      ensures var t := resolveIterable(it); var n := old(numIndexes);
              r.Ok? && TakesIndex(t) ==>
                && r.value.condition == Unit(canonicalize(IndexTest(it, n, IsString(t))))
                && TextsOf(r.value.initialization, [StmtNode(LoopVarDecl(v)), StmtNode(IndexInit(n))])
                && TextsOf(r.value.update, [ExprNode(IndexUpdate(n))])
                && Built(r.value.block, [IndexSet(v, it, n, IsString(t))] + BlockItems(Some(body)))
                && numIndexes == n + 1 + Counted(resolveIterable, body, true)
                && numIterators == old(numIterators) + Counted(resolveIterable, body, false)
      ensures var t := resolveIterable(it); var n := old(numIterators);
              r.Ok? && !TakesIndex(t) ==>
                && |t.typeArguments| == 1 && t.typeArguments[0].ReferenceArgument?
                && r.value.condition == Unit(canonicalize(IteratorTest(n)))
                && TextsOf(r.value.initialization, [StmtNode(LoopVarDecl(v)), StmtNode(IteratorInit(t.typeArguments[0].qualifiedName, it, n))])
                && r.value.update == []
                && Built(r.value.block, [IteratorSet(v, n)] + BlockItems(Some(body)))
                && numIterators == n + 1 + Counted(resolveIterable, body, false)
                && numIndexes == old(numIndexes) + Counted(resolveIterable, body, true)
    {
      var t := resolveIterable(it);
      if TakesIndex(t) {
        var n := numIndexes;
        var varSet := IndexSet(v, it, n, IsString(t));
        var added := AddVarSetToBlock(body, varSet, true);
        var newBody := added.value;
        CountedAfterVarSet(resolveIterable, body, newBody, varSet, true);
        CountedAfterVarSet(resolveIterable, body, newBody, varSet, false);
        numIndexes := numIndexes + 1;
        r := BuildLoop(newBody, Some(IndexTest(it, n, IsString(t))),
                       [StmtNode(LoopVarDecl(v)), StmtNode(IndexInit(n))], [ExprNode(IndexUpdate(n))], true);
      } else {
        if |t.typeArguments| != 1 {
          return Err(TypeArgumentCount(|t.typeArguments|));
        }
        if t.typeArguments[0].OtherArgument? {
          return Err(ArgumentNotReference);
        }
        var n := numIterators;
        var varSet := IteratorSet(v, n);
        var added := AddVarSetToBlock(body, varSet, true);
        var newBody := added.value;
        CountedAfterVarSet(resolveIterable, body, newBody, varSet, true);
        CountedAfterVarSet(resolveIterable, body, newBody, varSet, false);
        numIterators := numIterators + 1;
        r := BuildLoop(newBody, Some(IteratorTest(n)),
                       [StmtNode(LoopVarDecl(v)), StmtNode(IteratorInit(t.typeArguments[0].qualifiedName, it, n))], [], true);
      }
    }

    /**
     * `buildDecisionBlock` for an if: the then-branch laid out, the
     * condition tree, and the else: an "ElseBlock" node for a block, the
     * statement's own node otherwise, nothing without one.
     */
    method BuildIf(c: Expr, t: Stmt, e: Option<Stmt>) returns (r: Result<Contents, TagError>)
      modifies this
      decreases Size(Stmt.If(c, t, e)), 0
      ensures r.Ok? ==> r.value.DecisionBlock? && r.value.condition == BuildCondition(canonicalize, c)
      ensures r.Ok? ==> Built(r.value.block, BlockItems(Some(t)))
      ensures r.Ok? ==> (r.value.elseNode.None? <==> e.None?)
      ensures r.Ok? && e.Some? && e.value.Block? ==>
                var n := r.value.elseNode.value;
                && HeadOf(n) == ("ElseBlock", None, false)
                && n.contents.Block? && Built(n.contents.statements, BlockItems(e))
      ensures r.Ok? && e.Some? && !e.value.Block? ==> Fits(r.value.elseNode.value, e.value)
      ensures r.Ok? ==> numIndexes == old(numIndexes) + Counted(resolveIterable, Stmt.If(c, t, e), true)
      ensures r.Ok? ==> numIterators == old(numIterators) + Counted(resolveIterable, Stmt.If(c, t, e), false)
    {
      var block :- BuildBlock(Some(t));
      var cond := BuildCondition(canonicalize, c);
      var elseNode: Option<AstNode> := None;
      if e.Some? {
        if e.value.Block? {
          var stmts :- BuildBlock(e);
          elseNode := Some(AstNode("ElseBlock", None, false, Contents.Block(stmts)));
        } else {
          var n :- BuildStatement(e.value);
          elseNode := Some(n);
        }
      }
      r := Ok(DecisionBlock(cond, block, elseNode));
    }

    /** The condition a case other than a trailing default is decided on: its label comparisons, or `true` without labels. */
    function CaseCondition(en: SwitchEntry, sel: Expr): Condition
    {
      BuildCondition(canonicalize, if |en.labels| > 0 then CaseExpr(transform, sel, en.labels) else Lit(BoolLit, "true"))
    }

    /** `c` is what the case builder makes of `en`. */
    predicate CaseFits(c: CaseNode, en: SwitchEntry, sel: Expr, last: bool)
    {
      && (c.DefaultCase? <==> |en.labels| == 0 && last)
      && (c.DecisionCase? ==> c.condition == CaseCondition(en, sel))
      && Built(c.block, en.body)
    }

    /** The first `|built|` entries of a switch have the case nodes `built`. */
    predicate CasesFit(built: seq<CaseNode>, entries: seq<SwitchEntry>, sel: Expr)
    {
      |built| <= |entries| && forall j | 0 <= j < |built| :: CaseFits(built[j], entries[j], sel, j == |entries| - 1)
    }

    lemma CasesFitSnoc(built: seq<CaseNode>, entries: seq<SwitchEntry>, sel: Expr, c: CaseNode)
      requires CasesFit(built, entries, sel) && |built| < |entries|
      requires CaseFits(c, entries[|built|], sel, |built| == |entries| - 1)
      ensures CasesFit(built + [c], entries, sel)
    {
    }

    /**
     * `buildSwitchCase`: a default in last place is a plain block; any other
     * entry a decision on its case condition. Its statements are not opened.
     */
    method BuildSwitchCase(en: SwitchEntry, sel: Expr, last: bool) returns (r: Result<CaseNode, TagError>)
      modifies this
      decreases 1 + SizeAll(en.body), 4
      ensures r.Ok? ==> CaseFits(r.value, en, sel, last)
      ensures r.Ok? ==> numIndexes == old(numIndexes) + CountedAll(resolveIterable, en.body, true)
      ensures r.Ok? ==> numIterators == old(numIterators) + CountedAll(resolveIterable, en.body, false)
    {
      if |en.labels| == 0 && last {
        var b :- BuildStatements(en.body);
        return Ok(DefaultCase(b));
      }
      // The condition text is parsed back: as `CaseExpr` (see `CaseTextParses`), or as `true` (see `DefaultCaseCondition`).
      var parsed := if |en.labels| > 0 then CaseExpr(transform, sel, en.labels) else Lit(BoolLit, "true");
      var cond := BuildCondition(canonicalize, parsed);
      var b :- BuildStatements(en.body);
      r := Ok(DecisionCase(cond, b));
    }

    /** The case nodes of a switch's entries, in order; only the last entry, when it has no label, is a plain block. */
    method BuildCases(sel: Expr, entries: seq<SwitchEntry>) returns (r: Result<seq<CaseNode>, TagError>)
      modifies this
      decreases Size(Stmt.Switch(sel, entries)), 0
      ensures r.Ok? ==> |r.value| == |entries| && CasesFit(r.value, entries, sel)
      ensures r.Ok? ==> numIndexes == old(numIndexes) + CountedEntries(resolveIterable, entries, true)
      ensures r.Ok? ==> numIterators == old(numIterators) + CountedEntries(resolveIterable, entries, false)
    {
      var built: seq<CaseNode> := [];
      var i := 0;
      while i < |entries|
        invariant 0 <= i <= |entries| && |built| == i
        invariant CasesFit(built, entries, sel)
        invariant numIndexes == old(numIndexes) + CountedEntries(resolveIterable, entries[..i], true)
        invariant numIterators == old(numIterators) + CountedEntries(resolveIterable, entries[..i], false)
      {
        SwitchEntryBound(sel, entries, i);
        CountedEntriesSnoc(resolveIterable, entries, i);
        var c :- BuildSwitchCase(entries[i], sel, i >= |entries| - 1);
        CasesFitSnoc(built, entries, sel, c);
        built := built + [c];
        i := i + 1;
      }
      assert entries[..|entries|] == entries;
      r := Ok(built);
    }

    /**
     * The switch form of `buildDecisionBlock`: the cases in order, each
     * decision's else holding the next; the first case node replaces the
     * switch's own node. Without entries the node keeps its type and label
     * and gets no contents of its own.
     */
    method BuildSwitch(sel: Expr, entries: seq<SwitchEntry>, switchLabel: Option<string>)
      returns (r: Result<AstNode, TagError>, ghost cases: seq<CaseNode>)
      modifies this
      decreases Size(Stmt.Switch(sel, entries)), 1
      ensures |entries| == 0 ==> r == Ok(AstNode("SwitchStmt", switchLabel, false, Contents.Block([])))
      ensures r.Ok? && |entries| > 0 ==>
                && |cases| == |entries| && WellPlaced(cases) && r.value == Chain(cases) && CasesFit(cases, entries, sel)
      ensures r.Ok? ==> numIndexes == old(numIndexes) + CountedEntries(resolveIterable, entries, true)
      ensures r.Ok? ==> numIterators == old(numIterators) + CountedEntries(resolveIterable, entries, false)
    {
      cases := [];
      if |entries| == 0 {
        return Ok(AstNode("SwitchStmt", switchLabel, false, Contents.Block([]))), cases;
      }
      var built :- BuildCases(sel, entries);
      cases := built;
      assert WellPlaced(built) by {
        forall j | 0 <= j < |built| - 1 ensures built[j].DecisionCase? {
          assert CaseFits(built[j], entries[j], sel, false);
        }
      }
      r := Ok(Chain(built));
    }

    /** `buildTryBlock`: the try block and the finally block laid out, and one catch block per clause in order. */
    method BuildTry(tb: seq<Stmt>, cs: seq<CatchClause>, f: Option<Stmt>) returns (r: Result<Contents, TagError>)
      modifies this
      decreases Size(Stmt.Try(tb, cs, f)), 0
      ensures r.Ok? ==> r.value.TryBlock? && Built(r.value.block, Flatten(tb))
      ensures r.Ok? ==> (r.value.finallyBlock.Some? <==> f.Some?)
      ensures r.Ok? && f.Some? ==> Built(r.value.finallyBlock.value, BlockItems(f))
      ensures r.Ok? ==> |r.value.catches| == |cs| && CatchesFit(r.value.catches, cs)
      ensures r.Ok? ==> numIndexes == old(numIndexes) + Counted(resolveIterable, Stmt.Try(tb, cs, f), true)
      ensures r.Ok? ==> numIterators == old(numIterators) + Counted(resolveIterable, Stmt.Try(tb, cs, f), false)
    {
      var block :- BuildBlock(Some(Stmt.Block(tb)));
      var fin: Option<seq<AstNode>> := None;
      if f.Some? {
        var fb :- BuildBlock(f);
        fin := Some(fb);
      }
      var catches :- BuildCatches(cs);
      r := Ok(TryBlock(block, fin, catches));
    }

    /** The catch blocks of the first `|catches|` clauses. */
    predicate CatchesFit(catches: seq<CatchBlock>, cs: seq<CatchClause>)
    {
      |catches| <= |cs| && forall j | 0 <= j < |catches| ::
        catches[j].exceptionTypes == CaughtTypes(cs[j].types) && Built(catches[j].block, Flatten(cs[j].handler))
    }

    lemma CatchesFitSnoc(catches: seq<CatchBlock>, cs: seq<CatchClause>, cb: CatchBlock)
      requires CatchesFit(catches, cs) && |catches| < |cs|
      requires cb.exceptionTypes == CaughtTypes(cs[|catches|].types) && Built(cb.block, Flatten(cs[|catches|].handler))
      ensures CatchesFit(catches + [cb], cs)
    {
    }

    /** One catch block per clause, in order. */
    method BuildCatches(cs: seq<CatchClause>) returns (r: Result<seq<CatchBlock>, TagError>)
      modifies this
      decreases 1 + SizeCatches(cs), 5
      ensures r.Ok? ==> |r.value| == |cs| && CatchesFit(r.value, cs)
      ensures r.Ok? ==> numIndexes == old(numIndexes) + CountedCatches(resolveIterable, cs, true)
      ensures r.Ok? ==> numIterators == old(numIterators) + CountedCatches(resolveIterable, cs, false)
    {
      var catches: seq<CatchBlock> := [];
      var i := 0;
      while i < |cs|
        invariant 0 <= i <= |cs| && |catches| == i
        invariant CatchesFit(catches, cs)
        invariant numIndexes == old(numIndexes) + CountedCatches(resolveIterable, cs[..i], true)
        invariant numIterators == old(numIterators) + CountedCatches(resolveIterable, cs[..i], false)
      {
        SizeCatchesBound(cs, i);
        var cb :- BuildCatch(cs[i]);
        assert cs[..i + 1][..i] == cs[..i];
        CatchesFitSnoc(catches, cs, cb);
        catches := catches + [cb];
        i := i + 1;
      }
      assert cs[..|cs|] == cs;
      r := Ok(catches);
    }

    /** `buildCatchBlock`: the clause's exception types with their ancestors, and its body laid out. */
    method BuildCatch(c: CatchClause) returns (r: Result<CatchBlock, TagError>)
      modifies this
      decreases 2 + SizeAll(c.handler), 4
      ensures r.Ok? ==> r.value.exceptionTypes == CaughtTypes(c.types) && Built(r.value.block, Flatten(c.handler))
      ensures r.Ok? ==> numIndexes == old(numIndexes) + CountedAll(resolveIterable, c.handler, true)
      ensures r.Ok? ==> numIterators == old(numIterators) + CountedAll(resolveIterable, c.handler, false)
    {
      var block :- BuildBlock(Some(Stmt.Block(c.handler)));
      r := Ok(CatchBlock(CaughtTypes(c.types), block));
    }
  }
}
