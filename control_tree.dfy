/**
 * The tagged control tree that the Java tagger builds and the Rust
 * processor lowers to a control-flow graph. Every statement of a method
 * becomes an `AstNode`; loops, decisions and plain blocks carry the nodes of
 * their bodies, and conditions are trees of `&&`, `||` and atomic tests.
 */
module ControlTree {
  import opened Wrappers

  /** A condition: short-circuit conjunction and disjunction over atomic tests. */
  datatype Condition =
    | And(left: Condition, right: Condition)
    | Or(left: Condition, right: Condition)
    | Unit(expr: string)
    | Empty

  /** One catch clause of a try block: the exception types it catches and its body. */
  datatype CatchBlock = CatchBlock(exceptionTypes: seq<string>, block: seq<AstNode>)

  datatype Contents =
    | FunctionBlock(name: Option<string>, namespace: seq<string>, parameters: seq<string>, block: seq<AstNode>)
    | LoopBlock(firstIterationConditionCheck: bool, block: seq<AstNode>, condition: Condition,
                initialization: seq<string>, update: seq<string>)
    | DecisionBlock(condition: Condition, block: seq<AstNode>, elseNode: Option<AstNode>)
    | TryBlock(block: seq<AstNode>, finallyBlock: Option<seq<AstNode>>, catches: seq<CatchBlock>)
    | ThrowStatement(statement: string, exception: seq<string>)
    | Statement(code: string)
    | YieldStatement(code: string)
    | BreakStatement(breakLabel: Option<string>)
    | ContinueStatement(continueLabel: Option<string>)
    | ReturnStatement(expression: Option<string>)
    | Block(statements: seq<AstNode>)

  /** A node of the tree; `breakable` marks loops and switch cases, the targets of an unlabeled break. */
  datatype AstNode = AstNode(nodeType: string, nodeLabel: Option<string>, breakable: bool, contents: Contents)

  /** No `Empty` anywhere in the condition. */
  predicate NoEmpty(c: Condition)
  {
    match c
    case And(l, r) => NoEmpty(l) && NoEmpty(r)
    case Or(l, r) => NoEmpty(l) && NoEmpty(r)
    case Unit(_) => true
    case Empty => false
  }

  /** Short-circuit evaluation of a condition when each atomic test has the truth value `env` gives it. */
  function Eval(c: Condition, env: string -> bool): bool
  {
    match c
    case And(l, r) => Eval(l, env) && Eval(r, env)
    case Or(l, r) => Eval(l, env) || Eval(r, env)
    case Unit(e) => env(e)
    case Empty => true
  }

  /** Number of atomic tests of a condition, which is the number of decision nodes it becomes. */
  function Atoms(c: Condition): nat
  {
    match c
    case And(l, r) => Atoms(l) + Atoms(r)
    case Or(l, r) => Atoms(l) + Atoms(r)
    case Unit(_) => 1
    case Empty => 0
  }
}
