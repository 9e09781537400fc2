/** How statements and files may be written: newlines may stand before every statement and
    must where it would otherwise run into the one before; commas between parameters and one
    after the last argument of a call may be left out or put. */
module StmtLoose {
  import opened Wrappers
  import opened Tokens
  import opened Ast
  import opened Grammar
  import opened StmtGrammar
  import opened Loose

  function LooseFields(fields: seq<Field>): seq<Pattern> {
    if fields == [] then [] else
      [Tok(SymToken(fields[0].0)), Tok(SymToken(fields[0].1)), Tok(Plain(Enl)), Newlines] + LooseFields(fields[1..])
  }

  function LooseType(t: VarType): seq<Pattern> {
    match t
    case Named(name) => if name == "" then [] else [Tok(SymToken(name))]
    case StructType(fields) =>
      [Tok(Plain(Struct)), Tok(Plain(LBrace)), Newlines] + (LooseFields(fields) + [Tok(Plain(RBrace))])
  }

  function LooseDeclaration(d: Declaration): seq<Pattern> {
    [Tok(Plain(Var)), Tok(SymToken(d.name))] + (LooseType(d.varType) + ([Tok(Plain(Assign))] + LooseExpr(d.expr)))
  }

  function LooseAssignment(a: Assignment): seq<Pattern> {
    [Tok(SymToken(a.name)), Tok(Plain(Assign))] + LooseExpr(a.expr)
  }

  function LooseParams(params: seq<Field>): seq<Pattern> {
    if params == [] then [] else
      [Tok(SymToken(params[0].0)), Tok(SymToken(params[0].1)), OptComma] + LooseParams(params[1..])
  }

  function LooseResults(results: seq<string>): seq<Pattern> {
    if results == [] then [] else [Tok(SymToken(results[0]))] + LooseResults(results[1..])
  }

  function LooseExprs(exprs: seq<Expr>): seq<Pattern> {
    if exprs == [] then [] else LooseExpr(exprs[0]) + LooseExprs(exprs[1..])
  }

  function LooseBody(b: Block): seq<Pattern>
    decreases b, 1
  {
    [Tok(Plain(LBrace)), Newlines] + (LooseAfter(b.nodes, 0) + [Newlines, Tok(Plain(RBrace))])
  }

  function LooseBranches(n: Node, i: nat): seq<Pattern>
    requires n.IfNode? && i < |n.branches|
    decreases n, 0, |n.branches| - i
  {
    LooseExpr(n.branches[i].cond) + (LooseBody(n.branches[i].block) + LooseElse(n, i + 1))
  }

  function LooseElse(n: Node, i: nat): seq<Pattern>
    requires n.IfNode? && 0 < i <= |n.branches|
    decreases n, 0, |n.branches| - i + 1, 0
  {
    if i < |n.branches| then [Tok(Plain(Else)), Tok(Plain(If))] + LooseBranches(n, i)
    else if n.tailElse.Some? then [Tok(Plain(Else))] + LooseBody(n.tailElse.value)
    else []
  }

  function LooseInit(init: Option<Declaration>): seq<Pattern> {
    if init.Some? then LooseDeclaration(init.value) else []
  }

  function LooseCond(cond: Option<Expr>): seq<Pattern> {
    if cond.Some? then LooseExpr(cond.value) else []
  }

  function LooseStep(step: Option<Assignment>): seq<Pattern> {
    if step.Some? then LooseAssignment(step.value) else []
  }

  /** The parts of a loop header, and what follows it. */
  function LooseHeader(
      init: Option<Declaration>, cond: Option<Expr>, step: Option<Assignment>, body: seq<Pattern>): seq<Pattern> {
    LooseInit(init)
    + ([Tok(Plain(Semicolon))] + (LooseCond(cond) + ([Tok(Plain(Semicolon))] + (LooseStep(step) + body))))
  }

  function LooseNode(n: Node): seq<Pattern>
    decreases n, 1
  {
    match n
    case DeclNode(d) => LooseDeclaration(d)
    case AsgnNode(a) => LooseAssignment(a)
    case ExprNode(e) => LooseExpr(e)
    case IfNode(branches, _) => [Tok(Plain(If))] + (if branches == [] then [] else LooseBranches(n, 0))
    case FuncNode(name, params, results, block) =>
      [Tok(Plain(Func)), Tok(SymToken(name)), Tok(Plain(LParent))]
      + (LooseParams(params) + ([Tok(Plain(RParent))] + (LooseResults(results) + LooseBody(block))))
    case ReturnNode(exprs) => [Tok(Plain(Return))] + LooseExprs(exprs)
    case ForNode(init, cond, step, block) => [Tok(Plain(For))] + LooseHeader(init, cond, step, LooseBody(block))
    case TypedefNode(newName, oldType) => [Tok(Plain(Typedef))] + (LooseType(oldType) + [Tok(SymToken(newName))])
  }

  /** The kind of a statement's first token. */
  function FirstKind(n: Node): Kind {
    if YieldNode(n) == [] then Enf else YieldNode(n)[0].Kind()
  }

  /** Written right behind `n`, a token of kind `k` would be taken for more of `n`: a minus for
      an operator, and after `return` whatever starts an expression for another value. */
  predicate RunsOn(n: Node, k: Kind) {
    match n
    case DeclNode(_) => k == Kind.Sub
    case AsgnNode(_) => k == Kind.Sub
    case ExprNode(_) => k == Kind.Sub
    case ReturnNode(_) => k == Kind.Sub || LiteralKind(k)
    case _ => false
  }

  predicate Merges(n: Node, m: Node) {
    RunsOn(n, FirstKind(m))
  }

  /** What stands between two statements. */
  function Gap(n: Node, m: Node): seq<Pattern> {
    if Merges(n, m) then [Tok(Plain(Enl)), Newlines] else [Newlines]
  }

  /** The statements from the `i`-th on, without what stands before the first of them. */
  function LooseAfter(nodes: seq<Node>, i: nat): seq<Pattern>
    decreases nodes, 2, |nodes| - i
  {
    if i >= |nodes| then []
    else if i + 1 == |nodes| then LooseNode(nodes[i])
    else LooseNode(nodes[i]) + (Gap(nodes[i], nodes[i + 1]) + LooseAfter(nodes, i + 1))
  }

  /** A whole file. */
  function LooseFile(nodes: seq<Node>): seq<Pattern> {
    [Newlines] + (LooseAfter(nodes, 0) + [Newlines])
  }

  // ----- the tokens of a tree are one way to write it -----

  lemma {:induction false} FieldsWritten(fields: seq<Field>)
    ensures Matches(YieldFields(fields), LooseFields(fields))
  {
    if fields == [] {
      NothingMatches();
    } else {
      hide Matches, YieldFields, LooseFields;
      var name, typ := SymToken(fields[0].0), SymToken(fields[0].1);
      var c, q := YieldFields(fields[1..]), LooseFields(fields[1..]);
      FieldsWritten(fields[1..]);
      WithNewline(c, q);
      WithToken(c, Plain(Enl), [Newlines] + q);
      WithTwo([Plain(Enl)] + c, name, typ, [Tok(Plain(Enl))] + ([Newlines] + q));
      assert [name, typ] + ([Plain(Enl)] + c) == [name, typ, Plain(Enl)] + c;
      assert [Tok(name), Tok(typ)] + ([Tok(Plain(Enl))] + ([Newlines] + q)) ==
             [Tok(name), Tok(typ), Tok(Plain(Enl)), Newlines] + q;
      FieldsStep(fields);
    }
  }

  lemma FieldsStep(fields: seq<Field>)
    requires fields != []
    ensures YieldFields(fields) ==
            [SymToken(fields[0].0), SymToken(fields[0].1), Plain(Enl)] + YieldFields(fields[1..])
    ensures LooseFields(fields) ==
            [Tok(SymToken(fields[0].0)), Tok(SymToken(fields[0].1)), Tok(Plain(Enl)), Newlines]
            + LooseFields(fields[1..])
  {
  }

  lemma TypeWritten(t: VarType)
    ensures Matches(YieldType(t), LooseType(t))
  {
    hide Matches, YieldFields, LooseFields;
    match t {
      case Named(name) =>
        if name == "" {
          NothingMatches();
        } else {
          MatchOne([SymToken(name)], SymToken(name));
        }
      case StructType(fields) =>
        var close := Plain(RBrace);
        FieldsWritten(fields);
        MatchOne([close], close);
        MatchConcat(YieldFields(fields), LooseFields(fields), [close], [Tok(close)]);
        var c, q := YieldFields(fields) + [close], LooseFields(fields) + [Tok(close)];
        WithNewline(c, q);
        WithTwo(c, Plain(Struct), Plain(LBrace), [Newlines] + q);
        assert [Tok(Plain(Struct)), Tok(Plain(LBrace))] + ([Newlines] + q) ==
               [Tok(Plain(Struct)), Tok(Plain(LBrace)), Newlines] + q;
    }
  }

  lemma DeclarationWritten(d: Declaration)
    ensures Matches(YieldDeclaration(d), LooseDeclaration(d))
  {
    hide Matches, YieldType, LooseType, Yield, LooseExpr;
    YieldMatches(d.expr);
    WithToken(Yield(d.expr), Plain(Assign), LooseExpr(d.expr));
    TypeWritten(d.varType);
    var c, q := [Plain(Assign)] + Yield(d.expr), [Tok(Plain(Assign))] + LooseExpr(d.expr);
    MatchConcat(YieldType(d.varType), LooseType(d.varType), c, q);
    WithTwo(YieldType(d.varType) + c, Plain(Var), SymToken(d.name), LooseType(d.varType) + q);
  }

  lemma AssignmentWritten(a: Assignment)
    ensures Matches(YieldAssignment(a), LooseAssignment(a))
  {
    hide Matches, Yield, LooseExpr;
    YieldMatches(a.expr);
    WithTwo(Yield(a.expr), SymToken(a.name), Plain(Assign), LooseExpr(a.expr));
  }

  lemma {:induction false} ParamsWritten(params: seq<Field>)
    ensures Matches(YieldParams(params), LooseParams(params))
  {
    if params == [] {
      NothingMatches();
    } else {
      hide Matches, YieldParams, LooseParams;
      var name, typ := SymToken(params[0].0), SymToken(params[0].1);
      var c, q := YieldParams(params[1..]), LooseParams(params[1..]);
      ParamsWritten(params[1..]);
      WithComma(c, q);
      assert [] + c == c;
      WithTwo(Separator(|params|) + c, name, typ, [OptComma] + q);
      assert [Tok(name), Tok(typ)] + ([OptComma] + q) == [Tok(name), Tok(typ), OptComma] + q;
      ParamsStep(params);
    }
  }

  lemma ParamsStep(params: seq<Field>)
    requires params != []
    ensures YieldParams(params) ==
            [SymToken(params[0].0), SymToken(params[0].1)] + (Separator(|params|) + YieldParams(params[1..]))
    ensures LooseParams(params) ==
            [Tok(SymToken(params[0].0)), Tok(SymToken(params[0].1)), OptComma] + LooseParams(params[1..])
  {
  }

  lemma {:induction false} ResultsWritten(results: seq<string>)
    ensures Matches(YieldResults(results), LooseResults(results))
  {
    hide Matches;
    if results == [] {
      NothingMatches();
    } else {
      ResultsWritten(results[1..]);
      WithToken(YieldResults(results[1..]), SymToken(results[0]), LooseResults(results[1..]));
    }
  }

  lemma {:induction false} ExprsWritten(exprs: seq<Expr>)
    ensures Matches(YieldExprs(exprs), LooseExprs(exprs))
  {
    hide Matches, Yield, LooseExpr;
    if exprs == [] {
      NothingMatches();
    } else {
      YieldMatches(exprs[0]);
      ExprsWritten(exprs[1..]);
      MatchConcat(Yield(exprs[0]), LooseExpr(exprs[0]), YieldExprs(exprs[1..]), LooseExprs(exprs[1..]));
    }
  }

  lemma {:induction false} BodyWritten(b: Block)
    ensures Matches(YieldBody(b), LooseBody(b))
    decreases b, 1
  {
    hide Matches, YieldNodes, LooseAfter;
    var open, close := Plain(LBrace), Plain(RBrace);
    var c, q := YieldNodes(b.nodes, 0), LooseAfter(b.nodes, 0) + [Newlines];
    NodesWritten(b.nodes, 0);
    MatchOne([close], close);
    MatchConcat(c, q, [close], [Tok(close)]);
    WithNewline(c + [close], q + [Tok(close)]);
    WithToken([Plain(Enl)] + (c + [close]), open, [Newlines] + (q + [Tok(close)]));
    assert [open] + ([Plain(Enl)] + (c + [close])) == [open, Plain(Enl)] + (c + [close]);
    assert [Tok(open)] + ([Newlines] + (q + [Tok(close)])) ==
           [Tok(open), Newlines] + (LooseAfter(b.nodes, 0) + [Newlines, Tok(close)]);
  }

  lemma {:induction false} BranchesWritten(n: Node, i: nat)
    requires n.IfNode? && i < |n.branches|
    ensures Matches(YieldBranches(n, i), LooseBranches(n, i))
    decreases n, 0, |n.branches| - i
  {
    hide Matches, Yield, LooseExpr, YieldBody, LooseBody;
    var b := n.branches[i];
    YieldMatches(b.cond);
    BodyWritten(b.block);
    if i + 1 < |n.branches| {
      BranchesWritten(n, i + 1);
      WithTwo(YieldBranches(n, i + 1), Plain(Else), Plain(If), LooseBranches(n, i + 1));
    } else if n.tailElse.Some? {
      BodyWritten(n.tailElse.value);
      WithToken(YieldBody(n.tailElse.value), Plain(Else), LooseBody(n.tailElse.value));
    } else {
      NothingMatches();
    }
    MatchConcat(YieldBody(b.block), LooseBody(b.block), YieldElse(n, i + 1), LooseElse(n, i + 1));
    MatchConcat(Yield(b.cond), LooseExpr(b.cond), YieldBody(b.block) + YieldElse(n, i + 1),
                LooseBody(b.block) + LooseElse(n, i + 1));
  }

  lemma HeaderWritten(
      init: Option<Declaration>, cond: Option<Expr>, step: Option<Assignment>, c: seq<Token>, q: seq<Pattern>)
    requires Matches(c, q)
    ensures Matches(YieldHeader(init, cond, step) + c, LooseHeader(init, cond, step, q))
  {
    hide Matches, YieldDeclaration, LooseDeclaration, YieldAssignment, LooseAssignment, Yield, LooseExpr;
    NothingMatches();
    if init.Some? { DeclarationWritten(init.value); }
    if cond.Some? { YieldMatches(cond.value); }
    if step.Some? { AssignmentWritten(step.value); }
    var semi := Plain(Semicolon);
    var a, b := if init.Some? then YieldDeclaration(init.value) else [], if cond.Some? then Yield(cond.value) else [];
    var d := YieldStep(step);
    MatchConcat(d, LooseStep(step), c, q);
    WithToken(d + c, semi, LooseStep(step) + q);
    MatchConcat(b, LooseCond(cond), [semi] + (d + c), [Tok(semi)] + (LooseStep(step) + q));
    WithToken(b + ([semi] + (d + c)), semi, LooseCond(cond) + ([Tok(semi)] + (LooseStep(step) + q)));
    MatchConcat(a, LooseInit(init), [semi] + (b + ([semi] + (d + c))),
                [Tok(semi)] + (LooseCond(cond) + ([Tok(semi)] + (LooseStep(step) + q))));
    assert a + ([semi] + (b + ([semi] + (d + c)))) == a + ([semi] + (b + ([semi] + d))) + c;
  }

  lemma {:induction false} NodeWritten(n: Node)
    ensures Matches(YieldNode(n), LooseNode(n))
    decreases n, 1
  {
    hide Matches, Yield, LooseExpr, YieldType, LooseType, YieldBody, LooseBody, YieldBranches, LooseBranches,
         YieldParams, LooseParams, YieldResults, LooseResults, YieldExprs, LooseExprs, YieldHeader, LooseHeader,
         YieldDeclaration, LooseDeclaration, YieldAssignment, LooseAssignment;
    match n {
      case DeclNode(d) => DeclarationWritten(d);
      case AsgnNode(a) => AssignmentWritten(a);
      case ExprNode(e) => YieldMatches(e);
      case IfNode(branches, _) =>
        NothingMatches();
        if branches != [] { BranchesWritten(n, 0); }
        WithToken(if branches == [] then [] else YieldBranches(n, 0), Plain(If),
                  if branches == [] then [] else LooseBranches(n, 0));
      case FuncNode(_, _, _, _) => FunctionWritten(n);
      case ReturnNode(exprs) =>
        ExprsWritten(exprs);
        WithToken(YieldExprs(exprs), Plain(Return), LooseExprs(exprs));
      case ForNode(init, cond, step, block) =>
        BodyWritten(block);
        HeaderWritten(init, cond, step, YieldBody(block), LooseBody(block));
        WithToken(YieldHeader(init, cond, step) + YieldBody(block), Plain(For),
                  LooseHeader(init, cond, step, LooseBody(block)));
      case TypedefNode(newName, oldType) =>
        var t := SymToken(newName);
        TypeWritten(oldType);
        MatchOne([t], t);
        MatchConcat(YieldType(oldType), LooseType(oldType), [t], [Tok(t)]);
        WithToken(YieldType(oldType) + [t], Plain(Typedef), LooseType(oldType) + [Tok(t)]);
    }
  }

  lemma {:induction false} FunctionWritten(n: Node)
    requires n.FuncNode?
    ensures Matches(YieldNode(n), LooseNode(n))
    decreases n, 0
  {
    hide Matches, YieldBody, LooseBody, YieldParams, LooseParams, YieldResults, LooseResults;
    var close := Plain(RParent);
    ParamsWritten(n.args);
    ResultsWritten(n.results);
    BodyWritten(n.block);
    MatchConcat(YieldResults(n.results), LooseResults(n.results), YieldBody(n.block), LooseBody(n.block));
    var c, q := YieldResults(n.results) + YieldBody(n.block), LooseResults(n.results) + LooseBody(n.block);
    WithToken(c, close, q);
    MatchConcat(YieldParams(n.args), LooseParams(n.args), [close] + c, [Tok(close)] + q);
    var d, r := YieldParams(n.args) + ([close] + c), LooseParams(n.args) + ([Tok(close)] + q);
    WithToken(d, Plain(LParent), r);
    WithTwo([Plain(LParent)] + d, Plain(Func), SymToken(n.name), [Tok(Plain(LParent))] + r);
    assert [Plain(Func), SymToken(n.name)] + ([Plain(LParent)] + d) ==
           [Plain(Func), SymToken(n.name), Plain(LParent)] + d;
    assert [Tok(Plain(Func)), Tok(SymToken(n.name))] + ([Tok(Plain(LParent))] + r) ==
           [Tok(Plain(Func)), Tok(SymToken(n.name)), Tok(Plain(LParent))] + r;
  }

  lemma {:induction false} NodesWritten(nodes: seq<Node>, i: nat)
    ensures Matches(YieldNodes(nodes, i), LooseAfter(nodes, i) + [Newlines])
    decreases nodes, 2, |nodes| - i
  {
    hide Matches, YieldNode, LooseNode, Merges;
    NothingMatches();
    WithNewline([], []);
    assert [Newlines] + [] == [Newlines] && [Plain(Enl)] + [] == [Plain(Enl)];
    if i >= |nodes| {
      assert LooseAfter(nodes, i) + [Newlines] == [Newlines];
    } else {
      NodeWritten(nodes[i]);
      NodesWritten(nodes, i + 1);
      var c, q := YieldNodes(nodes, i + 1), LooseAfter(nodes, i + 1) + [Newlines];
      if i + 1 >= |nodes| {
        MatchConcat(YieldNode(nodes[i]), LooseNode(nodes[i]), [Plain(Enl)], [Newlines]);
      } else {
        GapWritten(nodes[i], nodes[i + 1], c, q);
        var g := Gap(nodes[i], nodes[i + 1]);
        MatchConcat(YieldNode(nodes[i]), LooseNode(nodes[i]), [Plain(Enl)] + c, g + q);
        assert LooseNode(nodes[i]) + (g + q) == LooseNode(nodes[i]) + (g + LooseAfter(nodes, i + 1)) + [Newlines];
      }
    }
  }

  lemma GapWritten(n: Node, m: Node, c: seq<Token>, q: seq<Pattern>)
    requires Matches(c, q)
    ensures Matches([Plain(Enl)] + c, Gap(n, m) + q)
  {
    hide Matches, Merges;
    WithNewline(c, q);
    WithToken(c, Plain(Enl), [Newlines] + q);
    assert [Tok(Plain(Enl))] + ([Newlines] + q) == [Tok(Plain(Enl)), Newlines] + q;
  }

  /** One statement to a line is one way to write a file. */
  lemma FileWritten(nodes: seq<Node>)
    ensures Matches(YieldNodes(nodes, 0), LooseFile(nodes))
  {
    hide Matches, YieldNodes, LooseAfter;
    NodesWritten(nodes, 0);
    WithNewline(YieldNodes(nodes, 0), LooseAfter(nodes, 0) + [Newlines]);
  }
}
