/** The statement parser as it runs, on the shared stream. */
module StmtParsing {
  import opened Wrappers
  import opened Tokens
  import opened Ast
  import opened TokenStream
  import opened ExprParsing
  import P = ExprParser
  import S = StmtParser

  /** Skips the current token if it is of this kind. */
  method Accept(stream: TokenStream, kind: Kind) returns (ok: bool)
    requires stream.Valid() && kind != Enf
    modifies stream
    ensures stream.Valid() && ok == (P.Head(old(stream.Rest())) == kind)
    ensures stream.Rest() == if ok then P.Advance(old(stream.Rest())) else old(stream.Rest())
    ensures !ok ==> stream.state == old(stream.state)
    ensures ok ==> |stream.Rest()| < |old(stream.Rest())|
  {
    hide stream.Valid, stream.Rest, Coherent;
    var k := PeekKind(stream);
    ok := k == kind;
    if ok {
      stream.Next();
    }
  }

  /** The same, with the token's text. */
  method AcceptText(stream: TokenStream, kind: Kind) returns (ok: bool, text: string)
    requires stream.Valid() && kind != Enf
    modifies stream
    ensures stream.Valid() && ok == (P.Head(old(stream.Rest())) == kind)
    ensures stream.Rest() == if ok then P.Advance(old(stream.Rest())) else old(stream.Rest())
    ensures !ok ==> stream.state == old(stream.state)
    ensures ok ==> |stream.Rest()| < |old(stream.Rest())|
    ensures text == S.HeadText(old(stream.Rest()))
  {
    hide stream.Valid, stream.Rest, Coherent;
    var v := stream.Peek();
    text := v.tok.Text();
    ok := v.tok.Kind() == kind;
    if ok {
      stream.Next();
    }
  }

  /** The text of the current token, whatever it is, and past it. */
  method TakeText(stream: TokenStream) returns (text: string)
    requires stream.Valid()
    modifies stream
    ensures stream.Valid() && stream.Rest() == P.Advance(old(stream.Rest()))
    ensures text == S.HeadText(old(stream.Rest()))
  {
    hide stream.Valid, stream.Rest, Coherent;
    var v := stream.Peek();
    text := v.tok.Text();
    stream.Next();
  }

  method SkipNewlines(stream: TokenStream)
    requires stream.Valid()
    modifies stream
    ensures stream.Valid() && stream.Rest() == S.SkipNewlines(old(stream.Rest()))
  {
    hide stream.Valid, stream.Rest, Coherent;
    var more := true;
    while more
      invariant stream.Valid() && S.SkipNewlines(stream.Rest()) == S.SkipNewlines(old(stream.Rest()))
      invariant !more ==> stream.Rest() == S.SkipNewlines(stream.Rest())
      decreases more, |stream.Rest()|
    {
      more := Accept(stream, Enl);
    }
  }

  // ----- loops that collect -----

  /** What a loop that has collected `done` still has to do is `more`. */
  ghost predicate Continues<T>(all: P.Parsed<seq<T>>, done: seq<T>, more: P.Parsed<seq<T>>) {
    match more
    case Ok(xs, rest) => all == P.Ok(done + xs, rest)
    case Err(fatal) => all == P.Err(fatal)
  }

  lemma ContinuesAll<T>(all: P.Parsed<seq<T>>)
    ensures Continues(all, [], all)
  {
    if all.Ok? {
      assert [] + all.value == all.value;
    }
  }

  lemma ContinuesDone<T>(all: P.Parsed<seq<T>>, done: seq<T>, rest: seq<Token>)
    requires Continues(all, done, P.Ok([], rest))
    ensures all == P.Ok(done, rest)
  {
    assert done + [] == done;
  }

  lemma ContinuesOne<T>(all: P.Parsed<seq<T>>, done: seq<T>, x: T, more: P.Parsed<seq<T>>, next: P.Parsed<seq<T>>)
    requires Continues(all, done, more)
    requires match next case Ok(xs, rest) => more == P.Ok([x] + xs, rest) case Err(fatal) => more == P.Err(fatal)
    ensures Continues(all, done + [x], next)
  {
    if next.Ok? {
      assert done + ([x] + next.value) == done + [x] + next.value;
    }
  }

  // ----- types -----

  lemma FieldsHere(ts: seq<Token>)
    ensures var typed := P.Advance(ts);
            if P.Head(ts) != Symbol then S.ParseFields(ts) == P.Ok([], ts)
            else if P.Head(typed) != Symbol || P.Head(P.Advance(typed)) != Enl then S.ParseFields(ts) == P.Err(false)
            else match S.ParseFields(S.SkipNewlines(P.Advance(P.Advance(typed))))
                 case Ok(xs, rest) => S.ParseFields(ts) == P.Ok([(S.HeadText(ts), S.HeadText(typed))] + xs, rest)
                 case Err(fatal) => S.ParseFields(ts) == P.Err(fatal)
  {
    var after := P.Advance(P.Advance(ts));
    assert P.Head(after) == Enl ==> S.SkipNewlines(after) == S.SkipNewlines(P.Advance(after));
  }

  method ParseFields(stream: TokenStream) returns (r: Result<seq<Field>>)
    requires stream.Valid()
    modifies stream
    ensures Did(stream, old(stream.state), old(stream.Rest()), S.ParseFields(old(stream.Rest())), r)
  {
    hide stream.Valid, stream.Rest, Coherent, Continues, S.SkipNewlines, S.ParseFields;
    var saved := stream.Save();
    var fields: seq<Field> := [];
    ghost var all := S.ParseFields(stream.Rest());
    ContinuesAll(all);
    while true
      invariant stream.Valid() && Continues(all, fields, S.ParseFields(stream.Rest()))
      decreases |stream.Rest()|
    {
      ghost var here := stream.Rest();
      FieldsHere(here);
      var ok, name := AcceptText(stream, Symbol);
      if !ok {
        ContinuesDone(all, fields, stream.Rest());
        break;
      }
      var typ;
      ok, typ := AcceptText(stream, Symbol);
      if ok {
        ok := Accept(stream, Enl);
      }
      if !ok {
        ContinuesError(all, fields);
        stream.Load(saved);
        return Bad(false);
      }
      SkipNewlines(stream);
      ContinuesOne(all, fields, (name, typ), S.ParseFields(here), S.ParseFields(stream.Rest()));
      fields := fields + [(name, typ)];
    }
    r := Good(fields);
  }

  lemma ContinuesError<T>(all: P.Parsed<seq<T>>, done: seq<T>)
    ensures forall fatal :: Continues(all, done, P.Err(fatal)) ==> all == P.Err(fatal)
  {
  }

  method ParseStruct(stream: TokenStream) returns (r: Result<seq<Field>>)
    requires stream.Valid()
    modifies stream
    ensures Did(stream, old(stream.state), old(stream.Rest()), S.ParseStruct(old(stream.Rest())), r)
  {
    hide stream.Valid, stream.Rest, Coherent, S.ParseFields, S.SkipNewlines;
    var saved := stream.Save();
    var ok := Accept(stream, Struct);
    if ok {
      ok := Accept(stream, LBrace);
    }
    if !ok {
      stream.Load(saved);
      return Bad(false);
    }
    assert stream.Rest() == P.Advance(P.Advance(old(stream.Rest())));
    SkipNewlines(stream);
    r := ParseFields(stream);
    if r.Good? {
      ok := Accept(stream, RBrace);
      if ok { return; }
      r := Bad(false);
    }
    stream.Load(saved);
  }

  method ParseVarType(stream: TokenStream) returns (t: VarType)
    requires stream.Valid()
    modifies stream
    ensures stream.Valid() && (t, stream.Rest()) == S.ParseVarType(old(stream.Rest()))
  {
    hide stream.Valid, stream.Rest, Coherent, S.ParseStruct;
    var stct := ParseStruct(stream);
    if stct.Good? { return StructType(stct.value); }
    var ok, name := AcceptText(stream, Symbol);
    t := if ok then Named(name) else Named("");
  }

  // ----- simple statements -----

  method ParseDeclaration(stream: TokenStream) returns (r: Result<Declaration>)
    requires stream.Valid()
    modifies stream
    ensures Did(stream, old(stream.state), old(stream.Rest()), S.ParseDeclaration(old(stream.Rest())), r)
  {
    hide stream.Valid, stream.Rest, Coherent, S.ParseVarType, P.ParseExpr;
    var saved := stream.Save();
    var ok := Accept(stream, Var);
    if !ok { return Bad(false); }
    var name;
    ok, name := AcceptText(stream, Symbol);
    if !ok {
      stream.Load(saved);
      return Bad(true);
    }
    var varType := ParseVarType(stream);
    ok := Accept(stream, Assign);
    if !ok {
      stream.Load(saved);
      return Bad(false);
    }
    var e := ParseExpr(stream);
    if e.Bad? {
      stream.Load(saved);
      return Bad(e.fatal);
    }
    r := Good(Declaration(name, varType, e.value));
  }

  method ParseAssignment(stream: TokenStream) returns (r: Result<Assignment>)
    requires stream.Valid()
    modifies stream
    ensures Did(stream, old(stream.state), old(stream.Rest()), S.ParseAssignment(old(stream.Rest())), r)
  {
    hide stream.Valid, stream.Rest, Coherent, P.ParseExpr;
    var saved := stream.Save();
    var ok, name := AcceptText(stream, Symbol);
    if ok {
      ok := Accept(stream, Assign);
    }
    if !ok {
      stream.Load(saved);
      return Bad(false);
    }
    var e := ParseExpr(stream);
    if e.Bad? {
      stream.Load(saved);
      return Bad(e.fatal);
    }
    r := Good(Assignment(name, e.value));
  }

  method ParseReturn(stream: TokenStream) returns (r: Result<Node>)
    requires stream.Valid()
    modifies stream
    ensures Did(stream, old(stream.state), old(stream.Rest()), S.ParseReturn(old(stream.Rest())), r)
  {
    hide stream.Valid, stream.Rest, Coherent, P.ParseExpr;
    var ok := Accept(stream, Return);
    if !ok { return Bad(false); }
    var exprs: seq<Expr> := [];
    ghost var all := S.ParseExprs(stream.Rest());
    while true
      invariant stream.Valid()
      invariant var more := S.ParseExprs(stream.Rest()); exprs + more.0 == all.0 && more.1 == all.1
      decreases |stream.Rest()|
    {
      ghost var more := S.ParseExprs(stream.Rest()).0;
      var e := ParseExpr(stream);
      if e.Bad? {
        assert exprs + [] == exprs;
        break;
      }
      assert exprs + more == exprs + [e.value] + more[1..];
      exprs := exprs + [e.value];
    }
    r := Good(ReturnNode(exprs));
  }

  method ParseTypedef(stream: TokenStream) returns (r: Result<Node>)
    requires stream.Valid()
    modifies stream
    ensures Did(stream, old(stream.state), old(stream.Rest()), S.ParseTypedef(old(stream.Rest())), r)
  {
    hide stream.Valid, stream.Rest, Coherent, S.ParseVarType;
    var saved := stream.Save();
    var ok := Accept(stream, Typedef);
    if !ok { return Bad(false); }
    var oldType := ParseVarType(stream);
    var newName;
    ok, newName := AcceptText(stream, Symbol);
    if !ok {
      stream.Load(saved);
      return Bad(true);
    }
    r := Good(TypedefNode(newName, oldType));
  }

  // ----- function headers -----

  method ParseParams(stream: TokenStream) returns (r: Result<seq<Field>>)
    requires stream.Valid()
    modifies stream
    ensures Did(stream, old(stream.state), old(stream.Rest()), S.ParseParams(old(stream.Rest())), r)
  {
    hide stream.Valid, stream.Rest, Coherent, Continues;
    var saved := stream.Save();
    var params: seq<Field> := [];
    ghost var all := S.ParseParams(stream.Rest());
    ContinuesAll(all);
    while true
      invariant stream.Valid() && Continues(all, params, S.ParseParams(stream.Rest()))
      decreases |stream.Rest()|
    {
      ghost var here := stream.Rest();
      var ok, name := AcceptText(stream, Symbol);
      if !ok {
        ContinuesDone(all, params, stream.Rest());
        break;
      }
      var typ;
      ok, typ := AcceptText(stream, Symbol);
      if !ok {
        assert all == P.Err(true) by { assert S.ParseParams(here) == P.Err(true); ContinuesError(all, params); }
        stream.Load(saved);
        return Bad(true);
      }
      ok := Accept(stream, Comma);
      ContinuesOne(all, params, (name, typ), S.ParseParams(here), S.ParseParams(stream.Rest()));
      params := params + [(name, typ)];
    }
    r := Good(params);
  }

  method ParseResults(stream: TokenStream) returns (names: seq<string>)
    requires stream.Valid()
    modifies stream
    ensures stream.Valid() && (names, stream.Rest()) == S.ParseResults(old(stream.Rest()))
  {
    hide stream.Valid, stream.Rest, Coherent;
    names := [];
    ghost var all := S.ParseResults(stream.Rest());
    while true
      invariant stream.Valid()
      invariant var more := S.ParseResults(stream.Rest()); names + more.0 == all.0 && more.1 == all.1
      decreases |stream.Rest()|
    {
      ghost var more := S.ParseResults(stream.Rest()).0;
      var ok, name := AcceptText(stream, Symbol);
      if !ok {
        assert names + [] == names;
        break;
      }
      assert names + more == names + [name] + more[1..];
      names := names + [name];
    }
  }

  // ----- statements with blocks -----

  method ParseBody(stream: TokenStream) returns (r: Result<Block>)
    requires stream.Valid()
    modifies stream
    ensures Did(stream, old(stream.state), old(stream.Rest()), S.ParseBody(old(stream.Rest())), r)
    decreases |stream.Rest()|, 0
  {
    hide stream.Valid, stream.Rest, Coherent, S.ParseBlock, S.SkipNewlines;
    var saved := stream.Save();
    var ok := Accept(stream, LBrace);
    if !ok { return Bad(false); }
    SkipNewlines(stream);
    r := ParseBlock(stream);
    if r.Good? {
      ok := Accept(stream, RBrace);
      if ok { return; }
      r := Bad(false);
    }
    stream.Load(saved);
  }

  method ParseFunction(stream: TokenStream) returns (r: Result<Node>)
    requires stream.Valid()
    modifies stream
    ensures Did(stream, old(stream.state), old(stream.Rest()), S.ParseFunction(old(stream.Rest())), r)
    decreases |stream.Rest()|, 1
  {
    hide stream.Valid, stream.Rest, Coherent, S.ParseSignature, S.ParseBody;
    var saved := stream.Save();
    var signature := ParseSignature(stream);
    if signature.Bad? { return Bad(signature.fatal); }
    var block := ParseBody(stream);
    if block.Bad? {
      stream.Load(saved);
      return Bad(block.fatal);
    }
    var (name, params, results) := signature.value;
    r := Good(FuncNode(name, params, results, block.value));
  }

  method ParseSignature(stream: TokenStream) returns (r: Result<(string, seq<Field>, seq<string>)>)
    requires stream.Valid()
    modifies stream
    ensures Did(stream, old(stream.state), old(stream.Rest()), S.ParseSignature(old(stream.Rest())), r)
  {
    hide stream.Valid, stream.Rest, Coherent, S.ParseParams, S.ParseResults;
    var saved := stream.Save();
    var ok := Accept(stream, Func);
    if !ok { return Bad(false); }
    var name := TakeText(stream);
    ok := Accept(stream, LParent);
    if !ok {
      stream.Load(saved);
      return Bad(true);
    }
    var params := ParseParams(stream);
    if params.Bad? {
      stream.Load(saved);
      return Bad(params.fatal);
    }
    ok := Accept(stream, RParent);
    if !ok {
      stream.Load(saved);
      return Bad(true);
    }
    var results := ParseResults(stream);
    r := Good((name, params.value, results));
  }

  method ParseBranch(stream: TokenStream) returns (r: Result<Branch>)
    requires stream.Valid()
    modifies stream
    ensures Did(stream, old(stream.state), old(stream.Rest()), S.ParseBranch(old(stream.Rest())), r)
    decreases |stream.Rest()|, 1
  {
    hide stream.Valid, stream.Rest, Coherent, P.ParseExpr, S.ParseBody;
    var saved := stream.Save();
    var cond := ParseExpr(stream);
    if cond.Bad? { return Bad(false); }
    var block := ParseBody(stream);
    if block.Bad? {
      stream.Load(saved);
      return Bad(block.fatal);
    }
    r := Good(Branch(cond.value, block.value));
  }

  /** What the loop over branches still has to do. */
  ghost predicate BranchesLeft(all: P.Parsed<(seq<Branch>, Option<Block>)>, done: seq<Branch>,
                               more: P.Parsed<(seq<Branch>, Option<Block>)>) {
    match more
    case Ok((branches, tailElse), rest) => all == P.Ok((done + branches, tailElse), rest)
    case Err(fatal) => all == P.Err(fatal)
  }

  lemma BranchesAll(all: P.Parsed<(seq<Branch>, Option<Block>)>)
    ensures BranchesLeft(all, [], all)
  {
    if all.Ok? {
      assert [] + all.value.0 == all.value.0;
    }
  }

  lemma BranchesNext(all: P.Parsed<(seq<Branch>, Option<Block>)>, done: seq<Branch>, b: Branch,
                     more: P.Parsed<(seq<Branch>, Option<Block>)>, next: P.Parsed<(seq<Branch>, Option<Block>)>)
    requires BranchesLeft(all, done, more)
    requires match next
             case Ok((branches, tailElse), rest) => more == P.Ok(([b] + branches, tailElse), rest)
             case Err(fatal) => more == P.Err(fatal)
    ensures BranchesLeft(all, done + [b], next)
  {
    if next.Ok? {
      assert done + ([b] + next.value.0) == done + [b] + next.value.0;
    }
  }

  /** The cases of the branch parser. */
  lemma BranchesHere(ts: seq<Token>)
    ensures match S.ParseBranch(ts)
            case Err(fatal) => S.ParseBranches(ts) == P.Err(fatal)
            case Ok(b, after) =>
              match S.ParseElse(after)
              case Err(fatal) => S.ParseBranches(ts) == P.Err(fatal)
              case Ok((more, tailElse), rest) =>
                if !more then S.ParseBranches(ts) == P.Ok(([b], tailElse), rest) else
                match S.ParseBranches(rest)
                case Ok((bs, t), last) => S.ParseBranches(ts) == P.Ok(([b] + bs, t), last)
                case Err(fatal) => S.ParseBranches(ts) == P.Err(fatal)
  {
    hide S.ParseBranch, S.ParseElse;
  }

  method ParseElse(stream: TokenStream) returns (r: Result<(bool, Option<Block>)>)
    requires stream.Valid()
    modifies stream
    ensures Did(stream, old(stream.state), old(stream.Rest()), S.ParseElse(old(stream.Rest())), r)
    decreases |stream.Rest()|, 1
  {
    hide stream.Valid, stream.Rest, Coherent, S.ParseBody;
    var saved := stream.Save();
    var ok := Accept(stream, Else);
    if !ok { return Good((false, None)); }
    ok := Accept(stream, If);
    if ok { return Good((true, None)); }
    var block := ParseBody(stream);
    if block.Bad? {
      stream.Load(saved);
      return Bad(block.fatal);
    }
    r := Good((false, Some(block.value)));
  }

  method ParseBranches(stream: TokenStream) returns (r: Result<(seq<Branch>, Option<Block>)>)
    requires stream.Valid()
    modifies stream
    ensures Did(stream, old(stream.state), old(stream.Rest()), S.ParseBranches(old(stream.Rest())), r)
    decreases |stream.Rest()|, 2
  {
    hide stream.Valid, stream.Rest, Coherent, S.ParseBranch, S.ParseElse, S.ParseBranches, BranchesLeft;
    var saved := stream.Save();
    var branches: seq<Branch> := [];
    ghost var all := S.ParseBranches(stream.Rest());
    BranchesAll(all);
    while true
      invariant stream.Valid() && |stream.Rest()| <= |old(stream.Rest())|
      invariant BranchesLeft(all, branches, S.ParseBranches(stream.Rest()))
      decreases |stream.Rest()|
    {
      ghost var here := stream.Rest();
      BranchesHere(here);
      BranchesError(all, branches);
      var b := ParseBranch(stream);
      if b.Bad? {
        stream.Load(saved);
        return Bad(b.fatal);
      }
      var tail := ParseElse(stream);
      if tail.Bad? {
        stream.Load(saved);
        return Bad(tail.fatal);
      }
      if !tail.value.0 {
        BranchesLast(all, branches, b.value, tail.value.1, stream.Rest());
        return Good((branches + [b.value], tail.value.1));
      }
      BranchesNext(all, branches, b.value, S.ParseBranches(here), S.ParseBranches(stream.Rest()));
      branches := branches + [b.value];
    }
  }

  method ParseIf(stream: TokenStream) returns (r: Result<Node>)
    requires stream.Valid()
    modifies stream
    ensures Did(stream, old(stream.state), old(stream.Rest()), S.ParseIf(old(stream.Rest())), r)
    decreases |stream.Rest()|, 3
  {
    hide stream.Valid, stream.Rest, Coherent, S.ParseBranches;
    var saved := stream.Save();
    var ok := Accept(stream, If);
    if !ok { return Bad(false); }
    var branches := ParseBranches(stream);
    if branches.Bad? {
      stream.Load(saved);
      return Bad(branches.fatal);
    }
    r := Good(IfNode(branches.value.0, branches.value.1));
  }

  lemma BranchesError(all: P.Parsed<(seq<Branch>, Option<Block>)>, done: seq<Branch>)
    ensures forall fatal :: BranchesLeft(all, done, P.Err(fatal)) ==> all == P.Err(fatal)
  {
  }

  lemma BranchesLast(all: P.Parsed<(seq<Branch>, Option<Block>)>, done: seq<Branch>, b: Branch,
                     tailElse: Option<Block>, rest: seq<Token>)
    requires BranchesLeft(all, done, P.Ok(([b], tailElse), rest))
    ensures all == P.Ok((done + [b], tailElse), rest)
  {
  }

  method ParseFor(stream: TokenStream) returns (r: Result<Node>)
    requires stream.Valid()
    modifies stream
    ensures Did(stream, old(stream.state), old(stream.Rest()), S.ParseFor(old(stream.Rest())), r)
    decreases |stream.Rest()|, 1
  {
    hide stream.Valid, stream.Rest, Coherent, P.ParseExpr, S.ParseDeclaration, S.ParseAssignment, S.ParseBody;
    var saved := stream.Save();
    var ok := Accept(stream, For);
    if !ok { return Bad(false); }
    var init := ParseDeclaration(stream);
    ok := Accept(stream, Semicolon);
    if !ok {
      stream.Load(saved);
      return Bad(false);
    }
    var cond := ParseExpr(stream);
    ok := Accept(stream, Semicolon);
    if !ok {
      stream.Load(saved);
      return Bad(false);
    }
    var step := ParseAssignment(stream);
    var block := ParseBody(stream);
    if block.Bad? {
      stream.Load(saved);
      return Bad(block.fatal);
    }
    r := Good(ForNode(Present(init), Present(cond), Present(step), block.value));
  }

  function Present<T>(r: Result<T>): Option<T> {
    if r.Good? then Some(r.value) else None
  }

  method ParseNode(stream: TokenStream) returns (r: Result<Node>)
    requires stream.Valid()
    modifies stream
    ensures Did(stream, old(stream.state), old(stream.Rest()), S.ParseNode(old(stream.Rest())), r)
    decreases |stream.Rest()|, 5
  {
    hide stream.Valid, stream.Rest, Coherent, P.ParseExpr, S.ParseDeclaration, S.ParseAssignment, S.ParseKeywordNode;
    var decl := ParseDeclaration(stream);
    if decl.Good? { return Good(DeclNode(decl.value)); }
    if decl.fatal { return Bad(true); }
    var asgn := ParseAssignment(stream);
    if asgn.Good? { return Good(AsgnNode(asgn.value)); }
    if asgn.fatal { return Bad(true); }
    var e := ParseExpr(stream);
    if e.Good? { return Good(ExprNode(e.value)); }
    if e.fatal { return Bad(true); }
    r := ParseKeywordNode(stream);
  }

  method ParseKeywordNode(stream: TokenStream) returns (r: Result<Node>)
    requires stream.Valid()
    modifies stream
    ensures Did(stream, old(stream.state), old(stream.Rest()), S.ParseKeywordNode(old(stream.Rest())), r)
    decreases |stream.Rest()|, 4
  {
    hide stream.Valid, stream.Rest, Coherent, S.ParseIf, S.ParseFunction, S.ParseReturn, S.ParseFor, S.ParseTypedef;
    r := ParseIf(stream);
    if r.Good? || r.fatal { return; }
    r := ParseFunction(stream);
    if r.Good? || r.fatal { return; }
    r := ParseReturn(stream);
    if r.Good? || r.fatal { return; }
    r := ParseFor(stream);
    if r.Good? || r.fatal { return; }
    r := ParseTypedef(stream);
  }

  method ParseBlock(stream: TokenStream) returns (r: Result<Block>)
    requires stream.Valid()
    modifies stream
    ensures Did(stream, old(stream.state), old(stream.Rest()), S.ParseBlock(old(stream.Rest())), r)
    decreases |stream.Rest()|, 8
  {
    hide stream.Valid, stream.Rest, Coherent, S.ParseNode, S.ParseNodes, S.SkipNewlines, Continues;
    var saved := stream.Save();
    var nodes: seq<Node> := [];
    ghost var all := S.ParseNodes(stream.Rest());
    ContinuesAll(all);
    while true
      invariant stream.Valid() && |stream.Rest()| <= |old(stream.Rest())|
      invariant Continues(all, nodes, S.ParseNodes(stream.Rest()))
      decreases |stream.Rest()|
    {
      ghost var here := stream.Rest();
      NodesHere(here);
      SkipNewlines(stream);
      var n := ParseNode(stream);
      if n.Bad? {
        if n.fatal {
          ContinuesError(all, nodes);
          stream.Load(saved);
          return Bad(true);
        }
        ContinuesDone(all, nodes, stream.Rest());
        break;
      }
      ContinuesOne(all, nodes, n.value, S.ParseNodes(here), S.ParseNodes(stream.Rest()));
      nodes := nodes + [n.value];
    }
    r := Good(Block(nodes));
  }

  lemma NodesHere(ts: seq<Token>)
    ensures var t := S.SkipNewlines(ts);
            match S.ParseNode(t)
            case Err(fatal) => S.ParseNodes(ts) == if fatal then P.Err(true) else P.Ok([], t)
            case Ok(n, rest) =>
              match S.ParseNodes(rest)
              case Err(fatal) => S.ParseNodes(ts) == P.Err(fatal)
              case Ok(nodes, last) => S.ParseNodes(ts) == P.Ok([n] + nodes, last)
  {
    hide S.ParseNode;
  }

  /** A whole file. */
  method ParseRoot(stream: TokenStream) returns (r: Result<Block>)
    requires stream.Valid()
    modifies stream
    ensures Did(stream, old(stream.state), old(stream.Rest()), S.ParseRoot(old(stream.Rest())), r)
  {
    hide stream.Valid, stream.Rest, Coherent, S.ParseBlock, S.SkipNewlines;
    var saved := stream.Save();
    r := ParseBlock(stream);
    if r.Bad? { return; }
    SkipNewlines(stream);
    var v := stream.Peek();
    if v.tok.Kind() != Enf {
      stream.Load(saved);
      return Bad(false);
    }
    stream.Next();
  }
}
