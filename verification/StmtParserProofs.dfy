/** The statement parser rebuilds every well-shaped file from every way to write it. */
module StmtParserProofs {
  import opened Wrappers
  import opened Tokens
  import opened Ast
  import opened ExprCompiler
  import opened Grammar
  import opened ExprParser
  import opened ExprParserProofs
  import opened StmtParser
  import opened StmtGrammar
  import opened Loose
  import opened StmtLoose

  /** The first token of a pattern is taken. */
  lemma First(ts: seq<Token>, rest: seq<Token>, t: Token, p: seq<Pattern>)
    requires Takes(ts, rest, [Tok(t)] + p)
    ensures Head(ts) == t.Kind() && HeadText(ts) == t.Text() && Takes(Advance(ts), rest, p)
  {
    hide Takes;
    TakesToken(ts, rest, t, p);
  }

  lemma FirstTwo(ts: seq<Token>, rest: seq<Token>, t: Token, u: Token, p: seq<Pattern>)
    requires Takes(ts, rest, [Tok(t), Tok(u)] + p)
    ensures Head(ts) == t.Kind() && HeadText(ts) == t.Text()
    ensures Head(Advance(ts)) == u.Kind() && HeadText(Advance(ts)) == u.Text()
    ensures Takes(Advance(Advance(ts)), rest, p)
  {
    hide Takes;
    assert [Tok(t), Tok(u)] + p == [Tok(t)] + ([Tok(u)] + p);
    First(ts, rest, t, [Tok(u)] + p);
    First(Advance(ts), rest, u, p);
  }

  lemma Last(ts: seq<Token>, rest: seq<Token>, t: Token)
    requires Takes(ts, rest, [Tok(t)])
    ensures Head(ts) == t.Kind() && HeadText(ts) == t.Text() && Advance(ts) == rest
  {
    hide Takes;
    TakesOne(ts, rest, t);
  }

  /** Newlines, up to something else. */
  lemma {:induction false} OnlyNewlines(ts: seq<Token>, rest: seq<Token>)
    requires Takes(ts, rest, [Newlines])
    ensures SkipNewlines(ts) == SkipNewlines(rest) && (Head(rest) != Enl ==> SkipNewlines(ts) == rest)
    ensures ts == rest || Head(ts) == Enl
    decreases |ts|
  {
    hide Matches;
    var c := ts[..|ts| - |rest|];
    assert ts == c + rest;
    MatchNewlines(c);
    if c != [] {
      assert c[0] == Plain(Enl) && Matches(c[1..], [Newlines]);
      assert Advance(ts)[..|Advance(ts)| - |rest|] == c[1..];
      OnlyNewlines(Advance(ts), rest);
    } else {
      assert ts == rest;
    }
  }

  lemma AfterNewlines(ts: seq<Token>, rest: seq<Token>, p: seq<Pattern>) returns (mid: seq<Token>)
    requires Takes(ts, rest, [Newlines] + p)
    ensures Takes(mid, rest, p) && SkipNewlines(ts) == SkipNewlines(mid)
    ensures (Head(mid) != Enl ==> SkipNewlines(ts) == mid) && (ts == mid || Head(ts) == Enl)
  {
    hide Takes;
    mid := TakesSplit(ts, rest, [Newlines], p);
    OnlyNewlines(ts, mid);
  }

  /** The expression parser seen from statements. */
  lemma ExprAccepts(ts: seq<Token>, rest: seq<Token>, e: Expr)
    requires Takes(ts, rest, LooseExpr(e)) && Shaped(e, 3) && Stops(rest, 3)
    ensures ParseExpr(ts) == Ok(e, rest) && |rest| < |ts|
  {
    hide Parse, LooseExpr, Matches, Shaped;
    var c := ts[..|ts| - |rest|];
    assert ts == c + rest;
    Accepts(c, e, 3, rest);
  }

  lemma NoExpr(ts: seq<Token>)
    requires !LiteralKind(Head(ts)) && Head(ts) != Sub
    ensures ParseExpr(ts) == Err(false)
  {
    hide Parse;
    NoExpression(ts, 3);
  }

  /** The first token of an expression, and that no second token is `=`. */
  lemma {:induction false} ExprStart(e: Expr, level: nat)
    requires level <= 3 && Shaped(e, level)
    ensures Yield(e) != [] && (LiteralKind(Yield(e)[0].Kind()) || Yield(e)[0].Kind() == Sub)
    ensures |Yield(e)| > 1 ==> Yield(e)[1].Kind() != Assign
    decreases e, level
  {
    hide Yield;
    if level == 0 {
      TokensOfAtomic(e);
    } else if Shaped(e, level - 1) {
      ExprStart(e, level - 1);
    } else {
      NodeOf(e, level);
      ExprStart(e.exprs[0], level - 1);
      OpsStep(e, 0);
      assert Yield(e)[0] == Yield(e.exprs[0])[0];
      assert |Yield(e.exprs[0])| == 1 ==> Yield(e)[1] == Plain(e.ops[0]);
    }
  }

  /** However an expression is written, it starts as its own tokens do. */
  lemma {:induction false} ExprFirst(ts: seq<Token>, rest: seq<Token>, e: Expr, level: nat)
    requires level <= 3 && Shaped(e, level) && Takes(ts, rest, LooseExpr(e))
    ensures ts != [] && Yield(e) != [] && ts[0] == Yield(e)[0]
    ensures |ts| > 1 && Head(Advance(ts)) == Assign ==> Advance(ts) == rest
    decreases e, level
  {
    hide Yield, LooseExpr, Takes, LooseOps;
    if level == 0 {
      AtomicFirst(ts, rest, e);
    } else if Shaped(e, level - 1) {
      ExprFirst(ts, rest, e, level - 1);
    } else {
      NodeOf(e, level);
      var mid := TakesSplit(ts, rest, LooseExpr(e.exprs[0]), LooseOps(e, 0));
      ExprFirst(ts, mid, e.exprs[0], level - 1);
      NextOps(e, 0);
      TakesToken(mid, rest, Plain(e.ops[0]), LooseExpr(e.exprs[1]) + LooseOps(e, 1));
    }
  }

  lemma AtomicFirst(ts: seq<Token>, rest: seq<Token>, e: Expr)
    requires Shaped(e, 0) && Takes(ts, rest, LooseExpr(e))
    ensures ts != [] && Yield(e) != [] && ts[0] == Yield(e)[0]
    ensures |ts| > 1 && Head(Advance(ts)) == Assign ==> Advance(ts) == rest
  {
    hide Takes, LooseArgs;
    TokensOfAtomic(e);
    match e {
      case Atom(v) => TakesOne(ts, rest, v);
      case Ops(_, exprs) =>
        var v := exprs[0].v;
        assert LooseExpr(exprs[0]) == [Tok(v)];
        TakesToken(ts, rest, Plain(Kind.Sub), [Tok(v)]);
        TakesOne(ts[1..], rest, v);
      case Funcall(exprs) =>
        var f, more := exprs[0].v, LooseArgs(e, 1) + [Tok(Plain(RParent))];
        assert LooseExpr(exprs[0]) == [Tok(f)];
        TakesToken(ts, rest, f, [Tok(Plain(LParent))] + more);
        TakesToken(ts[1..], rest, Plain(LParent), more);
    }
  }

  // ----- types and simple statements -----

  lemma {:induction false} FieldsAccept(ts: seq<Token>, rest: seq<Token>, fields: seq<Field>)
    requires Takes(ts, rest, LooseFields(fields)) && Head(rest) == RBrace
    ensures Head(ts) != Enl && ParseFields(ts) == Ok(fields, rest)
    decreases |fields|
  {
    hide Takes, LooseFields, ParseFields, SkipNewlines;
    if fields == [] {
      NoLooseFields();
      TakesNothing(ts, rest);
      FieldsEnd(rest);
    } else {
      var line, mid := FieldTaken(ts, rest, fields);
      FieldsAccept(mid, rest, fields[1..]);
      FieldsMore(ts, fields[1..], rest);
      assert fields == [(fields[0].0, fields[0].1)] + fields[1..];
    }
  }

  lemma FieldTaken(ts: seq<Token>, rest: seq<Token>, fields: seq<Field>) returns (line: seq<Token>, mid: seq<Token>)
    requires fields != [] && Takes(ts, rest, LooseFields(fields))
    ensures Head(ts) == Symbol && HeadText(ts) == fields[0].0
    ensures Head(Advance(ts)) == Symbol && HeadText(Advance(ts)) == fields[0].1
    ensures line == Advance(Advance(ts)) && Head(line) == Enl && Takes(mid, rest, LooseFields(fields[1..]))
    ensures Head(mid) != Enl ==> SkipNewlines(line) == mid
  {
    hide Takes, LooseFields, SkipNewlines;
    var name, typ := SymToken(fields[0].0), SymToken(fields[0].1);
    var more := LooseFields(fields[1..]);
    FieldPattern(fields);
    FirstTwo(ts, rest, name, typ, [Tok(Plain(Enl))] + ([Newlines] + more));
    line := Advance(Advance(ts));
    First(line, rest, Plain(Enl), [Newlines] + more);
    mid := AfterNewlines(Advance(line), rest, more);
    SkipsOne(line);
  }

  lemma NoLooseFields()
    ensures LooseFields([]) == []
  {
  }

  lemma FieldPattern(fields: seq<Field>)
    requires fields != []
    ensures LooseFields(fields) ==
            [Tok(SymToken(fields[0].0)), Tok(SymToken(fields[0].1))]
            + ([Tok(Plain(Enl))] + ([Newlines] + LooseFields(fields[1..])))
  {
    hide LooseFields;
    FieldsStep(fields);
  }

  lemma SkipsOne(ts: seq<Token>)
    requires Head(ts) == Enl
    ensures SkipNewlines(ts) == SkipNewlines(Advance(ts))
  {
  }

  lemma FieldsEnd(rest: seq<Token>)
    requires Head(rest) == RBrace
    ensures ParseFields(rest) == Ok([], rest)
  {
  }

  lemma FieldsMore(ts: seq<Token>, fields: seq<Field>, rest: seq<Token>)
    requires Head(ts) == Symbol && Head(Advance(ts)) == Symbol && Head(Advance(Advance(ts))) == Enl
    requires ParseFields(SkipNewlines(Advance(Advance(ts)))) == Ok(fields, rest)
    ensures ParseFields(ts) == Ok([(HeadText(ts), HeadText(Advance(ts)))] + fields, rest)
  {
    hide SkipNewlines;
  }

  lemma TypeAccepts(ts: seq<Token>, rest: seq<Token>, t: VarType)
    requires Takes(ts, rest, LooseType(t)) && (t == Named("") ==> Head(rest) !in {Symbol, Struct})
    ensures ParseVarType(ts) == (t, rest)
  {
    hide Takes, LooseFields, ParseFields, SkipNewlines;
    match t {
      case Named(name) =>
        if name == "" {
          TakesNothing(ts, rest);
        } else {
          Last(ts, rest, SymToken(name));
        }
      case StructType(fields) =>
        var tail := LooseFields(fields) + [Tok(Plain(RBrace))];
        assert LooseType(t) == [Tok(Plain(Struct)), Tok(Plain(LBrace))] + ([Newlines] + tail);
        FirstTwo(ts, rest, Plain(Struct), Plain(LBrace), [Newlines] + tail);
        var mid := AfterNewlines(Advance(Advance(ts)), rest, tail);
        var close := TakesSplit(mid, rest, LooseFields(fields), [Tok(Plain(RBrace))]);
        Last(close, rest, Plain(RBrace));
        FieldsAccept(mid, close, fields);
    }
  }

  lemma DeclarationAccepts(ts: seq<Token>, rest: seq<Token>, d: Declaration)
    requires Takes(ts, rest, LooseDeclaration(d)) && Shaped(d.expr, 3) && Stops(rest, 3)
    ensures ParseDeclaration(ts) == Ok(d, rest)
  {
    hide Takes, Parse, ParseExpr, ParseVarType, LooseExpr, LooseType, Shaped;
    var value := [Tok(Plain(Assign))] + LooseExpr(d.expr);
    FirstTwo(ts, rest, Plain(Var), SymToken(d.name), LooseType(d.varType) + value);
    var mid := TakesSplit(Advance(Advance(ts)), rest, LooseType(d.varType), value);
    First(mid, rest, Plain(Assign), LooseExpr(d.expr));
    TypeAccepts(Advance(Advance(ts)), mid, d.varType);
    ExprAccepts(Advance(mid), rest, d.expr);
  }

  lemma AssignmentAccepts(ts: seq<Token>, rest: seq<Token>, a: Assignment)
    requires Takes(ts, rest, LooseAssignment(a)) && Shaped(a.expr, 3) && Stops(rest, 3)
    ensures ParseAssignment(ts) == Ok(a, rest)
  {
    hide Takes, Parse, ParseExpr, LooseExpr, Shaped;
    FirstTwo(ts, rest, SymToken(a.name), Plain(Assign), LooseExpr(a.expr));
    ExprAccepts(Advance(Advance(ts)), rest, a.expr);
  }

  lemma {:induction false} ExprsAccept(ts: seq<Token>, rest: seq<Token>, exprs: seq<Expr>)
    requires Takes(ts, rest, LooseExprs(exprs)) && Separate(exprs)
    requires Stops(rest, 3) && !LiteralKind(Head(rest))
    ensures ParseExprs(ts) == (exprs, rest)
    decreases |exprs|
  {
    hide Takes, Parse, ParseExpr, ParseExprs, LooseExpr, Yield, Shaped;
    if exprs == [] {
      TakesNothing(ts, rest);
      assert Kind.Sub in OpsAt(2);
      NoExprs(rest);
    } else {
      var next := TakesSplit(ts, rest, LooseExpr(exprs[0]), LooseExprs(exprs[1..]));
      ExprsAccept(next, rest, exprs[1..]);
      NextStops(next, rest, exprs);
      ExprAccepts(ts, next, exprs[0]);
      ExprsMore(ts, exprs[0], next);
      assert exprs == [exprs[0]] + exprs[1..];
    }
  }

  lemma NextStops(next: seq<Token>, rest: seq<Token>, exprs: seq<Expr>)
    requires Separate(exprs) && exprs != [] && Takes(next, rest, LooseExprs(exprs[1..])) && Stops(rest, 3)
    ensures Stops(next, 3)
  {
    hide Takes, LooseExpr, Yield, Shaped;
    if |exprs| == 1 {
      TakesNothing(next, rest);
    } else {
      var mid := TakesSplit(next, rest, LooseExpr(exprs[1]), LooseExprs(exprs[1..][1..]));
      ExprFirst(next, mid, exprs[1], 3);
      ExprStart(exprs[1], 3);
    }
  }

  lemma NoExprs(rest: seq<Token>)
    requires !LiteralKind(Head(rest)) && Head(rest) != Kind.Sub
    ensures ParseExprs(rest) == ([], rest)
  {
    hide ParseExpr;
    NoExpr(rest);
  }

  lemma ExprsMore(ts: seq<Token>, e: Expr, rest: seq<Token>)
    requires ParseExpr(ts) == Ok(e, rest)
    ensures ParseExprs(ts) == ([e] + ParseExprs(rest).0, ParseExprs(rest).1)
  {
    hide ParseExpr;
  }

  lemma ReturnAccepts(ts: seq<Token>, rest: seq<Token>, exprs: seq<Expr>)
    requires Takes(ts, rest, LooseNode(ReturnNode(exprs))) && Separate(exprs)
    requires Stops(rest, 3) && !LiteralKind(Head(rest))
    ensures ParseReturn(ts) == Ok(ReturnNode(exprs), rest)
  {
    hide Takes, Separate, ParseExprs, LooseExprs;
    First(ts, rest, Plain(Return), LooseExprs(exprs));
    ExprsAccept(Advance(ts), rest, exprs);
  }

  lemma TypedefAccepts(ts: seq<Token>, rest: seq<Token>, newName: string, oldType: VarType)
    requires Takes(ts, rest, LooseNode(TypedefNode(newName, oldType))) && oldType != Named("")
    ensures ParseTypedef(ts) == Ok(TypedefNode(newName, oldType), rest)
  {
    hide Takes, ParseVarType, LooseType;
    First(ts, rest, Plain(Typedef), LooseType(oldType) + [Tok(SymToken(newName))]);
    var mid := TakesSplit(Advance(ts), rest, LooseType(oldType), [Tok(SymToken(newName))]);
    Last(mid, rest, SymToken(newName));
    TypeAccepts(Advance(ts), mid, oldType);
  }

  // ----- function headers -----

  lemma {:induction false} ParamsAccept(ts: seq<Token>, rest: seq<Token>, params: seq<Field>)
    requires Takes(ts, rest, LooseParams(params)) && Head(rest) == RParent
    ensures ParseParams(ts) == Ok(params, rest) && Head(ts) in {Symbol, RParent}
    decreases |params|
  {
    hide Takes, ParseParams, LooseParams;
    if params == [] {
      assert LooseParams(params) == [] by { NoLooseParams(); }
      TakesNothing(ts, rest);
      ParamsEnd(rest);
    } else {
      var name, typ := SymToken(params[0].0), SymToken(params[0].1);
      ParamPattern(params);
      FirstTwo(ts, rest, name, typ, [OptComma] + LooseParams(params[1..]));
      var typed := Advance(Advance(ts));
      var mid := TakesSplit(typed, rest, [OptComma], LooseParams(params[1..]));
      TakesComma(typed, mid);
      ParamsAccept(mid, rest, params[1..]);
      ParamsMore(ts, params[1..], rest);
      assert params == [(params[0].0, params[0].1)] + params[1..];
    }
  }

  lemma NoLooseParams()
    ensures LooseParams([]) == []
  {
  }

  lemma ParamPattern(params: seq<Field>)
    requires params != []
    ensures LooseParams(params) ==
            [Tok(SymToken(params[0].0)), Tok(SymToken(params[0].1))] + ([OptComma] + LooseParams(params[1..]))
  {
  }

  lemma ParamsEnd(rest: seq<Token>)
    requires Head(rest) == RParent
    ensures ParseParams(rest) == Ok([], rest)
  {
  }

  lemma ParamsMore(ts: seq<Token>, params: seq<Field>, rest: seq<Token>)
    requires Head(ts) == Symbol && Head(Advance(ts)) == Symbol
    requires var typed := Advance(Advance(ts));
             ParseParams(if Head(typed) == Comma then Advance(typed) else typed) == Ok(params, rest)
    ensures ParseParams(ts) == Ok([(HeadText(ts), HeadText(Advance(ts)))] + params, rest)
  {
  }

  lemma {:induction false} ResultsAccept(ts: seq<Token>, rest: seq<Token>, results: seq<string>)
    requires Takes(ts, rest, LooseResults(results)) && Head(rest) != Symbol
    ensures ParseResults(ts) == (results, rest)
    decreases |results|
  {
    hide Takes;
    if results == [] {
      TakesNothing(ts, rest);
    } else {
      First(ts, rest, SymToken(results[0]), LooseResults(results[1..]));
      ResultsAccept(Advance(ts), rest, results[1..]);
      assert results == [results[0]] + results[1..];
    }
  }

  // ----- which statement parser takes a token list -----

  /** The tokens that begin no declaration, assignment or expression. */
  predicate Keyword(k: Kind) {
    k != Var && k != Sub && !LiteralKind(k)
  }

  lemma NodeByKeyword(ts: seq<Token>)
    requires Keyword(Head(ts))
    ensures ParseNode(ts) == ParseKeywordNode(ts)
    ensures Head(ts) == If ==> ParseNode(ts) == ParseIf(ts)
    ensures Head(ts) == Func ==> ParseNode(ts) == ParseFunction(ts)
    ensures Head(ts) == Return ==> ParseNode(ts) == ParseReturn(ts)
    ensures Head(ts) == For ==> ParseNode(ts) == ParseFor(ts)
    ensures Head(ts) == Typedef ==> ParseNode(ts) == ParseTypedef(ts)
    ensures Head(ts) !in {If, Func, Return, For, Typedef} ==> ParseNode(ts) == Err(false)
  {
    hide Parse, ParseExpr, ParseBranches, ParseBody, ParseParams, ParseExprs, ParseVarType;
    NoExpr(ts);
    assert ParseDeclaration(ts) == Err(false) && ParseAssignment(ts) == Err(false);
  }

  lemma NodeDeclaration(ts: seq<Token>, d: Declaration, rest: seq<Token>)
    requires ParseDeclaration(ts) == Ok(d, rest)
    ensures ParseNode(ts) == Ok(DeclNode(d), rest)
  {
  }

  lemma NodeAssignment(ts: seq<Token>, a: Assignment, rest: seq<Token>)
    requires Head(ts) != Var && ParseAssignment(ts) == Ok(a, rest)
    ensures ParseNode(ts) == Ok(AsgnNode(a), rest)
  {
  }

  lemma NodeExpr(ts: seq<Token>, e: Expr, rest: seq<Token>)
    requires Head(ts) != Var && Head(Advance(ts)) != Assign && ParseExpr(ts) == Ok(e, rest)
    ensures ParseNode(ts) == Ok(ExprNode(e), rest)
  {
    hide ParseExpr, Parse;
  }

  /** Kinds of tokens that may stand right behind a statement: what ends a block, a newline,
      and what starts another statement, unless it runs on. */
  predicate Clear(n: Node, k: Kind) {
    || k in {Enl, RBrace, Enf}
    || ((LiteralKind(k) || k in {Var, Kind.Sub, If, Func, Return, For, Typedef}) && !RunsOn(n, k))
  }


  lemma ClearStops(n: Node, rest: seq<Token>)
    requires Clear(n, Head(rest)) && (n.DeclNode? || n.AsgnNode? || n.ExprNode? || n.ReturnNode?)
    ensures Stops(rest, 3) && Head(rest) != Assign && (n.ReturnNode? ==> !LiteralKind(Head(rest)))
  {
  }

  // ----- blocks -----

  lemma FirstOf(n: Node)
    ensures FirstKind(n) ==
            match n
            case DeclNode(_) => Var
            case AsgnNode(_) => Symbol
            case IfNode(_, _) => If
            case FuncNode(_, _, _, _) => Func
            case ReturnNode(_) => Return
            case ForNode(_, _, _, _) => For
            case TypedefNode(_, _) => Typedef
            case ExprNode(e) => if Yield(e) == [] then Enf else Yield(e)[0].Kind()
  {
    hide Yield, YieldBranches, YieldBody, YieldType, YieldHeader, YieldParams, YieldResults, YieldExprs;
  }

  /** However a statement is written, it starts with its first token. */
  lemma NodeFirst(ts: seq<Token>, rest: seq<Token>, n: Node)
    requires WellShaped(n) && Takes(ts, rest, LooseNode(n))
    ensures Head(ts) == FirstKind(n)
    ensures LiteralKind(Head(ts)) || Head(ts) in {Var, Kind.Sub, If, Func, Return, For, Typedef}
    ensures n.ExprNode? ==> LiteralKind(Head(ts)) || Head(ts) == Kind.Sub
  {
    hide Takes, Yield, Shaped, LooseExpr, LooseBranches, LooseType, LooseParams, LooseResults, LooseBody, LooseExprs,
         LooseHeader, YieldNode, WellShapedBlock, Separate;
    FirstOf(n);
    match n {
      case DeclNode(d) =>
        FirstTwo(ts, rest, Plain(Var), SymToken(d.name),
                 LooseType(d.varType) + ([Tok(Plain(Assign))] + LooseExpr(d.expr)));
      case AsgnNode(a) => FirstTwo(ts, rest, SymToken(a.name), Plain(Assign), LooseExpr(a.expr));
      case ExprNode(e) =>
        ExprFirst(ts, rest, e, 3);
        ExprStart(e, 3);
      case IfNode(branches, _) => First(ts, rest, Plain(If), if branches == [] then [] else LooseBranches(n, 0));
      case FuncNode(name, params, results, block) =>
        var more := LooseParams(params) + ([Tok(Plain(RParent))] + (LooseResults(results) + LooseBody(block)));
        assert LooseNode(n) == [Tok(Plain(Func))] + ([Tok(SymToken(name)), Tok(Plain(LParent))] + more);
        First(ts, rest, Plain(Func), [Tok(SymToken(name)), Tok(Plain(LParent))] + more);
      case ReturnNode(exprs) => First(ts, rest, Plain(Return), LooseExprs(exprs));
      case ForNode(init, cond, step, block) =>
        First(ts, rest, Plain(For), LooseHeader(init, cond, step, LooseBody(block)));
      case TypedefNode(newName, oldType) =>
        First(ts, rest, Plain(Typedef), LooseType(oldType) + [Tok(SymToken(newName))]);
    }
  }

  lemma NodesMore(ts: seq<Token>, n: Node, rest: seq<Token>, nodes: seq<Node>, last: seq<Token>)
    requires Head(ts) != Enl && ParseNode(ts) == Ok(n, rest) && ParseNodes(rest) == Ok(nodes, last)
    ensures ParseNodes(ts) == Ok([n] + nodes, last)
  {
    hide ParseNode;
  }

  lemma NodesEnd(ts: seq<Token>)
    requires Head(ts) in {RBrace, Enf}
    ensures ParseNodes(ts) == Ok([], ts)
  {
    hide ParseNode;
    NodeByKeyword(ts);
  }

  lemma NewlinesIgnored(ts: seq<Token>)
    ensures ParseNodes(SkipNewlines(ts)) == ParseNodes(ts)
  {
    hide ParseNode;
  }

  lemma AfterStep(nodes: seq<Node>, i: nat)
    ensures LooseAfter(nodes, i) ==
            if i >= |nodes| then []
            else if i + 1 == |nodes| then LooseNode(nodes[i])
            else LooseNode(nodes[i]) + (Gap(nodes[i], nodes[i + 1]) + LooseAfter(nodes, i + 1))
  {
    hide LooseNode, Gap;
  }

  /** The next statement, after the newlines of a gap. */
  lemma AfterGap(ts: seq<Token>, rest: seq<Token>, n: Node, m: Node, p: seq<Pattern>) returns (mid: seq<Token>)
    requires Takes(ts, rest, Gap(n, m) + p)
    ensures Takes(mid, rest, p) && SkipNewlines(ts) == SkipNewlines(mid)
    ensures Head(ts) == Enl || (ts == mid && !Merges(n, m))
  {
    hide Takes, Merges;
    if Merges(n, m) {
      assert Gap(n, m) + p == [Tok(Plain(Enl))] + ([Newlines] + p);
      First(ts, rest, Plain(Enl), [Newlines] + p);
      SkipsOne(ts);
      mid := AfterNewlines(Advance(ts), rest, p);
    } else {
      mid := AfterNewlines(ts, rest, p);
    }
  }

  /** Statement by statement, a block is rebuilt, and parsing stops where it ends. */
  lemma {:induction false} NodesAccept(ts: seq<Token>, rest: seq<Token>, nodes: seq<Node>, i: nat)
    requires forall k :: 0 <= k < |nodes| ==> WellShaped(nodes[k])
    requires i <= |nodes| && Head(rest) in {RBrace, Enf} && Takes(ts, rest, LooseAfter(nodes, i) + [Newlines])
    ensures ParseNodes(ts) == Ok(nodes[i..], rest)
    ensures i < |nodes| ==> Head(ts) == FirstKind(nodes[i]) && Head(ts) != Enl
    decreases nodes, 2, |nodes| - i
  {
    hide Takes, ParseNodes, ParseNode, LooseNode, LooseAfter, WellShaped, Gap, YieldNode, FirstKind, SkipNewlines,
         Clear;
    AfterStep(nodes, i);
    if i == |nodes| {
      assert LooseAfter(nodes, i) + [Newlines] == [Newlines];
      OnlyNewlines(ts, rest);
      NodesEnd(rest);
      NewlinesIgnored(ts);
      assert nodes[i..] == [];
    } else {
      var n := nodes[i];
      var tail := if i + 1 == |nodes| then [Newlines]
                  else Gap(n, nodes[i + 1]) + (LooseAfter(nodes, i + 1) + [Newlines]);
      assert LooseAfter(nodes, i) + [Newlines] == LooseNode(n) + tail;
      var after := TakesSplit(ts, rest, LooseNode(n), tail);
      NodeFirst(ts, after, n);
      var next;
      if i + 1 == |nodes| {
        next := rest;
        OnlyNewlines(after, rest);
        NodesEnd(rest);
        assert nodes[i + 1..] == [];
      } else {
        next := AfterGap(after, rest, n, nodes[i + 1], LooseAfter(nodes, i + 1) + [Newlines]);
        NodesAccept(next, rest, nodes, i + 1);
      }
      assert Clear(n, Head(after)) by { NowClear(nodes, i, after, next); }
      NodeAccepts(ts, after, n);
      NewlinesIgnored(after);
      NewlinesIgnored(next);
      NodesMore(ts, n, after, nodes[i + 1..], rest);
      Slice(nodes, i);
    }
  }

  lemma NowClear(nodes: seq<Node>, i: nat, after: seq<Token>, next: seq<Token>)
    requires i < |nodes| && (Head(after) == Enl || after == next)
    requires if i + 1 == |nodes| then Head(next) in {RBrace, Enf}
             else WellShaped(nodes[i + 1]) && Head(next) == FirstKind(nodes[i + 1])
                  && (after == next ==> !Merges(nodes[i], nodes[i + 1]) || Head(after) == Enl)
    ensures Clear(nodes[i], Head(after))
  {
    hide WellShaped, YieldNode;
    if i + 1 < |nodes| {
      StatementStart(nodes[i + 1]);
    }
  }

  lemma StatementStart(n: Node)
    requires WellShaped(n)
    ensures LiteralKind(FirstKind(n)) || FirstKind(n) in {Var, Kind.Sub, If, Func, Return, For, Typedef}
  {
    hide Yield, Shaped, WellShapedBlock, YieldNode;
    FirstOf(n);
    if n.ExprNode? {
      ExprStart(n.expr, 3);
    }
  }

  lemma {:induction false} BodyAccepts(ts: seq<Token>, rest: seq<Token>, b: Block)
    requires Takes(ts, rest, LooseBody(b)) && WellShapedBlock(b)
    ensures ParseBody(ts) == Ok(b, rest) && Head(ts) == LBrace
    decreases b, 2
  {
    hide Takes, ParseNodes, LooseAfter, WellShaped, SkipNewlines;
    var p := LooseAfter(b.nodes, 0);
    assert LooseBody(b) == [Tok(Plain(LBrace))] + ([Newlines] + (p + [Newlines] + [Tok(Plain(RBrace))]));
    First(ts, rest, Plain(LBrace), [Newlines] + (p + [Newlines] + [Tok(Plain(RBrace))]));
    var inner := AfterNewlines(Advance(ts), rest, p + [Newlines] + [Tok(Plain(RBrace))]);
    var close := TakesSplit(inner, rest, p + [Newlines], [Tok(Plain(RBrace))]);
    Last(close, rest, Plain(RBrace));
    NodesAccept(inner, close, b.nodes, 0);
    assert b.nodes[0..] == b.nodes;
    NewlinesIgnored(inner);
  }

  lemma {:induction false} BranchesAccept(ts: seq<Token>, rest: seq<Token>, n: Node, i: nat)
    requires n.IfNode? && WellShaped(n) && i < |n.branches|
    requires Takes(ts, rest, LooseBranches(n, i)) && Head(rest) != Else
    ensures ParseBranches(ts) == Ok((n.branches[i..], n.tailElse), rest)
    decreases n, 0, |n.branches| - i
  {
    hide Takes, ParseBranches, ParseBody, ParseExpr, Parse, LooseExpr, Shaped, LooseBody, LooseElse, WellShapedBlock;
    var b := n.branches[i];
    var afterCond := TakesSplit(ts, rest, LooseExpr(b.cond), LooseBody(b.block) + LooseElse(n, i + 1));
    var after := TakesSplit(afterCond, rest, LooseBody(b.block), LooseElse(n, i + 1));
    BodyAccepts(afterCond, after, b.block);
    BraceStops(afterCond);
    ExprAccepts(ts, afterCond, b.cond);
    Slice(n.branches, i);
    assert n.branches[i] == Branch(b.cond, b.block);
    if i + 1 < |n.branches| {
      MoreElse(n, i + 1);
      FirstTwo(after, rest, Plain(Else), Plain(If), LooseBranches(n, i + 1));
      BranchesAccept(Advance(Advance(after)), rest, n, i + 1);
      BranchThen(ts, b, afterCond, after, n.branches[i + 1..], n.tailElse, rest);
    } else {
      assert n.branches[i..] == [b];
      LastElse(n, i + 1);
      if n.tailElse.Some? {
        First(after, rest, Plain(Else), LooseBody(n.tailElse.value));
        BodyAccepts(Advance(after), rest, n.tailElse.value);
      } else {
        TakesNothing(after, rest);
      }
      BranchLast(ts, b, afterCond, after);
    }
  }

  lemma BraceStops(ts: seq<Token>)
    requires Head(ts) in {LBrace, Semicolon}
    ensures Stops(ts, 3)
  {
  }

  lemma MoreElse(n: Node, i: nat)
    requires n.IfNode? && 0 < i < |n.branches|
    ensures LooseElse(n, i) == [Tok(Plain(Else)), Tok(Plain(If))] + LooseBranches(n, i)
  {
    hide LooseBranches;
  }

  lemma LastElse(n: Node, i: nat)
    requires n.IfNode? && 0 < i == |n.branches|
    ensures LooseElse(n, i) == if n.tailElse.Some? then [Tok(Plain(Else))] + LooseBody(n.tailElse.value) else []
  {
    hide LooseBody;
  }

  lemma BranchThen(ts: seq<Token>, b: Branch, afterCond: seq<Token>, after: seq<Token>,
                   branches: seq<Branch>, tailElse: Option<Block>, rest: seq<Token>)
    requires ParseExpr(ts) == Ok(b.cond, afterCond) && ParseBody(afterCond) == Ok(b.block, after)
    requires Head(after) == Else && Head(Advance(after)) == If
    requires ParseBranches(Advance(Advance(after))) == Ok((branches, tailElse), rest)
    ensures ParseBranches(ts) == Ok(([b] + branches, tailElse), rest)
  {
    hide ParseExpr, Parse, ParseBody;
  }

  lemma BranchLast(ts: seq<Token>, b: Branch, afterCond: seq<Token>, after: seq<Token>)
    requires ParseExpr(ts) == Ok(b.cond, afterCond) && ParseBody(afterCond) == Ok(b.block, after)
    requires Head(after) == Else ==> Head(Advance(after)) == LBrace && ParseBody(Advance(after)).Ok?
    ensures Head(after) != Else ==> ParseBranches(ts) == Ok(([b], None), after)
    ensures Head(after) == Else ==>
              var r := ParseBody(Advance(after)); ParseBranches(ts) == Ok(([b], Some(r.value)), r.rest)
  {
    hide ParseExpr, Parse, ParseBody;
  }

  lemma {:induction false} FunctionAccepts(ts: seq<Token>, rest: seq<Token>, n: Node)
    requires n.FuncNode? && WellShaped(n) && Takes(ts, rest, LooseNode(n))
    ensures ParseFunction(ts) == Ok(n, rest)
    decreases n, 1
  {
    hide Takes, ParseBody, ParseParams, ParseResults, LooseBody, LooseParams, LooseResults, WellShapedBlock;
    var results := LooseResults(n.results) + LooseBody(n.block);
    var params := LooseParams(n.args) + ([Tok(Plain(RParent))] + results);
    assert LooseNode(n) == [Tok(Plain(Func)), Tok(SymToken(n.name))] + ([Tok(Plain(LParent))] + params);
    FirstTwo(ts, rest, Plain(Func), SymToken(n.name), [Tok(Plain(LParent))] + params);
    var open := Advance(Advance(ts));
    First(open, rest, Plain(LParent), params);
    var close := TakesSplit(Advance(open), rest, LooseParams(n.args), [Tok(Plain(RParent))] + results);
    First(close, rest, Plain(RParent), results);
    ParamsAccept(Advance(open), close, n.args);
    var body := TakesSplit(Advance(close), rest, LooseResults(n.results), LooseBody(n.block));
    BodyAccepts(body, rest, n.block);
    ResultsAccept(Advance(close), body, n.results);
  }

  /** Each header part is found when it is there and missed when it is not. */
  lemma InitAccepts(ts: seq<Token>, rest: seq<Token>, init: Option<Declaration>)
    requires Takes(ts, rest, LooseInit(init)) && Head(rest) == Semicolon && (init.Some? ==> Shaped(init.value.expr, 3))
    ensures ParseInit(ts) == (init, rest)
  {
    hide Takes, ParseDeclaration, LooseDeclaration, Shaped;
    BraceStops(rest);
    match init {
      case Some(d) => DeclarationAccepts(ts, rest, d);
      case None =>
        TakesNothing(ts, rest);
        NotThere(ts);
    }
  }

  lemma CondAccepts(ts: seq<Token>, rest: seq<Token>, cond: Option<Expr>)
    requires Takes(ts, rest, LooseCond(cond)) && Head(rest) == Semicolon && (cond.Some? ==> Shaped(cond.value, 3))
    ensures ParseCond(ts) == (cond, rest)
  {
    hide Takes, ParseExpr, LooseExpr, Shaped;
    BraceStops(rest);
    match cond {
      case Some(e) => ExprAccepts(ts, rest, e);
      case None =>
        TakesNothing(ts, rest);
        NotThere(ts);
    }
  }

  lemma StepAccepts(ts: seq<Token>, rest: seq<Token>, step: Option<Assignment>)
    requires Takes(ts, rest, LooseStep(step)) && Head(rest) == LBrace && (step.Some? ==> Shaped(step.value.expr, 3))
    ensures ParseStep(ts) == (step, rest)
  {
    hide Takes, ParseAssignment, LooseAssignment, Shaped;
    BraceStops(rest);
    match step {
      case Some(a) => AssignmentAccepts(ts, rest, a);
      case None =>
        TakesNothing(ts, rest);
        NotThere(ts);
    }
  }

  lemma NotThere(ts: seq<Token>)
    requires Head(ts) in {Semicolon, LBrace}
    ensures ParseDeclaration(ts) == Err(false) && ParseExpr(ts) == Err(false) && ParseAssignment(ts) == Err(false)
  {
    hide ParseExpr, Parse;
    NoExpr(ts);
  }

  lemma {:induction false} ForAccepts(ts: seq<Token>, rest: seq<Token>, n: Node)
    requires n.ForNode? && WellShaped(n) && Takes(ts, rest, LooseNode(n))
    ensures ParseFor(ts) == Ok(n, rest)
    decreases n, 1
  {
    hide Takes, ParseInit, ParseCond, ParseStep, ParseBody, LooseInit, LooseCond, LooseStep, LooseBody, Shaped,
         WellShapedBlock;
    var third := LooseStep(n.step) + LooseBody(n.block);
    var second := LooseCond(n.cond) + ([Tok(Plain(Semicolon))] + third);
    First(ts, rest, Plain(For), LooseInit(n.init) + ([Tok(Plain(Semicolon))] + second));
    var a := TakesSplit(Advance(ts), rest, LooseInit(n.init), [Tok(Plain(Semicolon))] + second);
    First(a, rest, Plain(Semicolon), second);
    var b := TakesSplit(Advance(a), rest, LooseCond(n.cond), [Tok(Plain(Semicolon))] + third);
    First(b, rest, Plain(Semicolon), third);
    var c := TakesSplit(Advance(b), rest, LooseStep(n.step), LooseBody(n.block));
    BodyAccepts(c, rest, n.block);
    InitAccepts(Advance(ts), a, n.init);
    CondAccepts(Advance(a), b, n.cond);
    StepAccepts(Advance(b), c, n.step);
  }

  /** Every well-shaped statement is parsed back from every way to write it, if what follows
      does not run on from it. */
  lemma {:induction false} NodeAccepts(ts: seq<Token>, rest: seq<Token>, n: Node)
    requires WellShaped(n) && Takes(ts, rest, LooseNode(n)) && Clear(n, Head(rest))
    ensures ParseNode(ts) == Ok(n, rest)
    decreases n, 3
  {
    hide Takes, ParseNode, ParseDeclaration, ParseAssignment, ParseExpr, Parse, ParseBranches, ParseFunction, ParseFor,
         ParseReturn, ParseTypedef, LooseExpr, Shaped, LooseBranches, LooseBody, LooseDeclaration, LooseAssignment,
         LooseType, LooseHeader, LooseParams, LooseResults, LooseExprs, YieldNode, WellShapedBlock, Separate;
    NodeFirst(ts, rest, n);
    FirstOf(n);
    match n {
      case DeclNode(d) =>
        ClearStops(n, rest);
        DeclarationAccepts(ts, rest, d);
        NodeDeclaration(ts, d, rest);
      case AsgnNode(a) =>
        ClearStops(n, rest);
        AssignmentAccepts(ts, rest, a);
        NodeAssignment(ts, a, rest);
      case ExprNode(e) =>
        ClearStops(n, rest);
        ExprAccepts(ts, rest, e);
        ExprFirst(ts, rest, e, 3);
        NodeExpr(ts, e, rest);
      case IfNode(branches, tailElse) =>
        First(ts, rest, Plain(If), LooseBranches(n, 0));
        NodeByKeyword(ts);
        BranchesAccept(Advance(ts), rest, n, 0);
        assert n.branches[0..] == n.branches;
      case FuncNode(_, _, _, _) =>
        NodeByKeyword(ts);
        FunctionAccepts(ts, rest, n);
      case ReturnNode(exprs) =>
        ClearStops(n, rest);
        NodeByKeyword(ts);
        ReturnAccepts(ts, rest, exprs);
      case ForNode(_, _, _, _) =>
        NodeByKeyword(ts);
        ForAccepts(ts, rest, n);
      case TypedefNode(newName, oldType) =>
        NodeByKeyword(ts);
        TypedefAccepts(ts, rest, newName, oldType);
    }
  }

  /** A well-shaped file is parsed back from every way to write it. */
  lemma RootAccepts(ts: seq<Token>, b: Block)
    requires WellShapedBlock(b) && Matches(ts, LooseFile(b.nodes))
    ensures ParseRoot(ts) == Ok(b, [])
  {
    hide Matches, ParseNodes, LooseAfter, WellShaped;
    assert Takes(ts, [], LooseFile(b.nodes)) by {
      assert ts[..|ts|] == ts;
    }
    hide Takes;
    var inner := AfterNewlines(ts, [], LooseAfter(b.nodes, 0) + [Newlines]);
    NodesAccept(inner, [], b.nodes, 0);
    NewlinesIgnored(ts);
    NewlinesIgnored(inner);
    assert b.nodes[0..] == b.nodes;
  }

  /** In particular from its statements' own tokens, one statement to a line. */
  lemma RootComplete(b: Block)
    requires WellShapedBlock(b)
    ensures ParseRoot(YieldNodes(b.nodes, 0)) == Ok(b, [])
  {
    hide Matches, YieldNodes, LooseFile, ParseRoot, WellShapedBlock;
    FileWritten(b.nodes);
    RootAccepts(YieldNodes(b.nodes, 0), b);
  }

  lemma SignatureAnyName(ts: seq<Token>, us: seq<Token>, more: seq<Token>)
    requires |ts| >= 2 && |us| >= 2 && ts[0] == us[0] && ts[1].Text() == us[1].Text()
    requires ts[1..][1..] == more == us[1..][1..]
    ensures ParseSignature(ts) == ParseSignature(us)
  {
    hide ParseParams, ParseResults;
  }

  /** The token behind `func` is not checked to be a name: any other is taken for the name that
      its text is, which for most is empty. */
  lemma AnyName(t: Token, more: seq<Token>)
    ensures ParseNode([Plain(Func), t] + more) == ParseNode([Plain(Func), SymToken(t.Text())] + more)
  {
    hide ParseNode, ParseBody, ParseSignature;
    var a, b := [Plain(Func), t] + more, [Plain(Func), SymToken(t.Text())] + more;
    NodeByKeyword(a);
    NodeByKeyword(b);
    assert a[1..] == [t] + more && b[1..] == [SymToken(t.Text())] + more;
    SignatureAnyName(a, b, more);
    assert ParseFunction(a) == ParseFunction(b);
  }
}
