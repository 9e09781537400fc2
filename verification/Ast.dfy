/** The syntax tree. Source locations of nodes are not part of this model. */
module Ast {
  import opened Wrappers
  import opened Tokens

  datatype Expr =
    | Atom(v: Token)
    | Ops(ops: seq<Kind>, exprs: seq<Expr>)
    | Funcall(exprs: seq<Expr>)   // the callee, then the arguments

  type Field = (string, string)

  datatype VarType = Named(name: string) | StructType(fields: seq<Field>)

  datatype Declaration = Declaration(name: string, varType: VarType, expr: Expr)

  datatype Assignment = Assignment(name: string, expr: Expr)

  datatype Branch = Branch(cond: Expr, block: Block)

  datatype Node =
    | DeclNode(decl: Declaration)
    | AsgnNode(asgn: Assignment)
    | ExprNode(expr: Expr)
    | IfNode(branches: seq<Branch>, tailElse: Option<Block>)
    | FuncNode(name: string, args: seq<Field>, results: seq<string>, block: Block)
    | ReturnNode(exprs: seq<Expr>)
    | ForNode(init: Option<Declaration>, cond: Option<Expr>, step: Option<Assignment>, block: Block)
    | TypedefNode(newName: string, oldType: VarType)

  datatype Block = Block(nodes: seq<Node>)
}
