/** The tokens of statements and blocks: one statement to a line. */
module StmtGrammar {
  import opened Wrappers
  import opened Tokens
  import opened Ast
  import opened Grammar

  function YieldFields(fields: seq<Field>): seq<Token> {
    if fields == [] then [] else
      [SymToken(fields[0].0), SymToken(fields[0].1), Plain(Enl)] + YieldFields(fields[1..])
  }

  /** The empty name stands for no type at all. */
  function YieldType(t: VarType): seq<Token> {
    match t
    case Named(name) => if name == "" then [] else [SymToken(name)]
    case StructType(fields) => [Plain(Struct), Plain(LBrace)] + (YieldFields(fields) + [Plain(RBrace)])
  }

  function YieldDeclaration(d: Declaration): seq<Token> {
    [Plain(Var), SymToken(d.name)] + (YieldType(d.varType) + ([Plain(Assign)] + Yield(d.expr)))
  }

  function YieldAssignment(a: Assignment): seq<Token> {
    [SymToken(a.name), Plain(Assign)] + Yield(a.expr)
  }

  function YieldParams(params: seq<Field>): seq<Token> {
    if params == [] then [] else
      [SymToken(params[0].0), SymToken(params[0].1)] + (Separator(|params|) + YieldParams(params[1..]))
  }

  /** What stands between the first of `n` parameters and the others. */
  function Separator(n: nat): seq<Token> {
    if n == 1 then [] else [Plain(Comma)]
  }

  function YieldResults(results: seq<string>): seq<Token> {
    if results == [] then [] else [SymToken(results[0])] + YieldResults(results[1..])
  }

  function YieldExprs(exprs: seq<Expr>): seq<Token> {
    if exprs == [] then [] else Yield(exprs[0]) + YieldExprs(exprs[1..])
  }

  /** Expressions one after the other are told apart when none but the first starts with a
      minus. */
  predicate Separate(exprs: seq<Expr>) {
    && (forall i :: 0 <= i < |exprs| ==> Shaped(exprs[i], 3))
    && (forall i :: 1 <= i < |exprs| ==> Yield(exprs[i]) != [] && Yield(exprs[i])[0].Kind() != Kind.Sub)
  }

  function YieldBody(b: Block): seq<Token>
    decreases b, 1
  {
    [Plain(LBrace), Plain(Enl)] + (YieldNodes(b.nodes, 0) + [Plain(RBrace)])
  }

  /** The branches of an if statement from the `i`-th condition on. */
  function YieldBranches(n: Node, i: nat): seq<Token>
    requires n.IfNode? && i < |n.branches|
    decreases n, 0, |n.branches| - i
  {
    Yield(n.branches[i].cond) + (YieldBody(n.branches[i].block) + YieldElse(n, i + 1))
  }

  function YieldElse(n: Node, i: nat): seq<Token>
    requires n.IfNode? && 0 < i <= |n.branches|
    decreases n, 0, |n.branches| - i + 1, 0
  {
    if i < |n.branches| then [Plain(Else), Plain(If)] + YieldBranches(n, i)
    else if n.tailElse.Some? then [Plain(Else)] + YieldBody(n.tailElse.value)
    else []
  }

  function YieldHeader(init: Option<Declaration>, cond: Option<Expr>, step: Option<Assignment>): seq<Token> {
    (if init.Some? then YieldDeclaration(init.value) else []) + ([Plain(Semicolon)] + YieldCondStep(cond, step))
  }

  function YieldCondStep(cond: Option<Expr>, step: Option<Assignment>): seq<Token> {
    (if cond.Some? then Yield(cond.value) else []) + ([Plain(Semicolon)] + YieldStep(step))
  }

  function YieldStep(step: Option<Assignment>): seq<Token> {
    if step.Some? then YieldAssignment(step.value) else []
  }

  function YieldNode(n: Node): seq<Token>
    decreases n, 1
  {
    match n
    case DeclNode(d) => YieldDeclaration(d)
    case AsgnNode(a) => YieldAssignment(a)
    case ExprNode(e) => Yield(e)
    case IfNode(branches, _) => [Plain(If)] + (if branches == [] then [] else YieldBranches(n, 0))
    case FuncNode(name, params, results, block) =>
      [Plain(Func), SymToken(name), Plain(LParent)]
      + (YieldParams(params) + ([Plain(RParent)] + (YieldResults(results) + YieldBody(block))))
    case ReturnNode(exprs) => [Plain(Return)] + YieldExprs(exprs)
    case ForNode(init, cond, step, block) => [Plain(For)] + (YieldHeader(init, cond, step) + YieldBody(block))
    case TypedefNode(newName, oldType) => [Plain(Typedef)] + (YieldType(oldType) + [SymToken(newName)])
  }

  function YieldNodes(nodes: seq<Node>, i: nat): seq<Token>
    decreases nodes, 2, |nodes| - i
  {
    if i >= |nodes| then [] else YieldNode(nodes[i]) + ([Plain(Enl)] + YieldNodes(nodes, i + 1))
  }

  /** Statements that are told apart by their tokens: expressions have the shape the
      precedence chain builds, an if has a branch, the values of a return are separate, a
      typedef names a type. */
  predicate WellShaped(n: Node)
    decreases n, 1
  {
    match n
    case DeclNode(d) => Shaped(d.expr, 3)
    case AsgnNode(a) => Shaped(a.expr, 3)
    case ExprNode(e) => Shaped(e, 3)
    case IfNode(branches, tailElse) =>
      && branches != []
      && (forall i :: 0 <= i < |branches| ==> Shaped(branches[i].cond, 3) && WellShapedBlock(branches[i].block))
      && (tailElse.Some? ==> WellShapedBlock(tailElse.value))
    case FuncNode(_, _, _, block) => WellShapedBlock(block)
    case ReturnNode(exprs) => Separate(exprs)
    case ForNode(init, cond, step, block) =>
      && (init.Some? ==> Shaped(init.value.expr, 3))
      && (cond.Some? ==> Shaped(cond.value, 3))
      && (step.Some? ==> Shaped(step.value.expr, 3))
      && WellShapedBlock(block)
    case TypedefNode(_, oldType) => oldType != Named("")
  }

  predicate WellShapedBlock(b: Block)
    decreases b, 0
  {
    forall i :: 0 <= i < |b.nodes| ==> WellShaped(b.nodes[i])
  }
}
