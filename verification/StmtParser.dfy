/** The statement parser on a list of tokens. */
module StmtParser {
  import opened Wrappers
  import opened Tokens
  import opened Ast
  import opened ExprParser

  function SkipNewlines(ts: seq<Token>): (r: seq<Token>)
    ensures |r| <= |ts| && Head(r) != Enl
  {
    if Head(ts) == Enl then SkipNewlines(Advance(ts)) else ts
  }

  /** The text of the current token, empty at the end. */
  function HeadText(ts: seq<Token>): string {
    if ts == [] then "" else ts[0].Text()
  }

  // ----- types -----

  /** `name type newline...` as long as there are names. */
  function ParseFields(ts: seq<Token>): (r: Parsed<seq<Field>>)
    ensures r.Ok? ==> |r.rest| <= |ts|
    decreases |ts|
  {
    if Head(ts) != Symbol then Ok([], ts) else
      var typed := Advance(ts);
      if Head(typed) != Symbol then Err(false)
      else if Head(Advance(typed)) != Enl then Err(false)
      else
        match ParseFields(SkipNewlines(Advance(typed)))
        case Err(fatal) => Err(fatal)
        case Ok(fields, rest) => Ok([(HeadText(ts), HeadText(typed))] + fields, rest)
  }

  function ParseStruct(ts: seq<Token>): (r: Parsed<seq<Field>>)
    ensures r.Ok? ==> |r.rest| < |ts|
  {
    if Head(ts) != Struct || Head(Advance(ts)) != LBrace then Err(false) else
      match ParseFields(SkipNewlines(Advance(Advance(ts))))
      case Err(fatal) => Err(fatal)
      case Ok(fields, rest) => if Head(rest) != RBrace then Err(false) else Ok(fields, Advance(rest))
  }

  /** A type never fails: without a struct or a name it is the empty name. */
  function ParseVarType(ts: seq<Token>): (r: (VarType, seq<Token>))
    ensures |r.1| <= |ts|
  {
    match ParseStruct(ts)
    case Ok(fields, rest) => (StructType(fields), rest)
    case Err(_) => if Head(ts) == Symbol then (Named(HeadText(ts)), Advance(ts)) else (Named(""), ts)
  }

  // ----- simple statements -----

  function ParseDeclaration(ts: seq<Token>): (r: Parsed<Declaration>)
    ensures r.Ok? ==> |r.rest| < |ts|
  {
    if Head(ts) != Var then Err(false)
    else if Head(Advance(ts)) != Symbol then Err(true)
    else
      var (varType, typed) := ParseVarType(Advance(Advance(ts)));
      if Head(typed) != Assign then Err(false) else
        match ParseExpr(Advance(typed))
        case Err(fatal) => Err(fatal)
        case Ok(e, rest) => Ok(Declaration(HeadText(Advance(ts)), varType, e), rest)
  }

  function ParseAssignment(ts: seq<Token>): (r: Parsed<Assignment>)
    ensures r.Ok? ==> |r.rest| < |ts|
  {
    if Head(ts) != Symbol || Head(Advance(ts)) != Assign then Err(false) else
      match ParseExpr(Advance(Advance(ts)))
      case Err(fatal) => Err(fatal)
      case Ok(e, rest) => Ok(Assignment(HeadText(ts), e), rest)
  }

  function ParseExprs(ts: seq<Token>): (r: (seq<Expr>, seq<Token>))
    ensures |r.1| <= |ts|
    decreases |ts|
  {
    match ParseExpr(ts)
    case Err(_) => ([], ts)
    case Ok(e, rest) =>
      var (es, last) := ParseExprs(rest);
      ([e] + es, last)
  }

  function ParseReturn(ts: seq<Token>): (r: Parsed<Node>)
    ensures r.Ok? ==> |r.rest| < |ts|
  {
    if Head(ts) != Return then Err(false) else
      var (es, rest) := ParseExprs(Advance(ts));
      Ok(ReturnNode(es), rest)
  }

  function ParseTypedef(ts: seq<Token>): (r: Parsed<Node>)
    ensures r.Ok? ==> |r.rest| < |ts|
  {
    if Head(ts) != Typedef then Err(false) else
      var (oldType, rest) := ParseVarType(Advance(ts));
      if Head(rest) != Symbol then Err(true) else Ok(TypedefNode(HeadText(rest), oldType), Advance(rest))
  }

  // ----- function headers -----

  /** `name type` pairs, each with an optional comma after it. */
  function ParseParams(ts: seq<Token>): (r: Parsed<seq<Field>>)
    ensures r.Ok? ==> |r.rest| <= |ts|
  {
    if Head(ts) != Symbol then Ok([], ts)
    else if Head(Advance(ts)) != Symbol then Err(true)
    else
      var typed := Advance(Advance(ts));
      match ParseParams(if Head(typed) == Comma then Advance(typed) else typed)
      case Err(fatal) => Err(fatal)
      case Ok(params, rest) => Ok([(HeadText(ts), HeadText(Advance(ts)))] + params, rest)
  }

  function ParseResults(ts: seq<Token>): (r: (seq<string>, seq<Token>))
    ensures |r.1| <= |ts|
  {
    if Head(ts) != Symbol then ([], ts) else
      var (names, rest) := ParseResults(Advance(ts));
      ([HeadText(ts)] + names, rest)
  }

  // ----- statements with blocks -----

  /** `{`, newlines, a block, `}`. */
  function ParseBody(ts: seq<Token>): (r: Parsed<Block>)
    ensures r.Ok? ==> |r.rest| < |ts|
    decreases |ts|, 0
  {
    if Head(ts) != LBrace then Err(false) else
      match ParseBlock(SkipNewlines(Advance(ts)))
      case Err(fatal) => Err(fatal)
      case Ok(block, rest) => if Head(rest) != RBrace then Err(false) else Ok(block, Advance(rest))
  }

  /** `func`, a name, parameters, result types. The name is whatever token follows `func`:
      one that is not a symbol gives an empty (or a string's) name and is not reported. */
  function ParseSignature(ts: seq<Token>): (r: Parsed<(string, seq<Field>, seq<string>)>)
    ensures r.Ok? ==> |r.rest| < |ts|
  {
    if Head(ts) != Func then Err(false) else
      var named := Advance(ts);
      if Head(Advance(named)) != LParent then Err(true) else
        match ParseParams(Advance(Advance(named)))
        case Err(fatal) => Err(fatal)
        case Ok(params, afterParams) =>
          if Head(afterParams) != RParent then Err(true) else
            var (results, rest) := ParseResults(Advance(afterParams));
            Ok((HeadText(named), params, results), rest)
  }

  function ParseFunction(ts: seq<Token>): (r: Parsed<Node>)
    ensures r.Ok? ==> |r.rest| < |ts|
    decreases |ts|, 1
  {
    match ParseSignature(ts)
    case Err(fatal) => Err(fatal)
    case Ok((name, params, results), afterResults) =>
      match ParseBody(afterResults)
      case Err(fatal) => Err(fatal)
      case Ok(block, rest) => Ok(FuncNode(name, params, results, block), rest)
  }

  /** A condition and a body. */
  function ParseBranch(ts: seq<Token>): (r: Parsed<Branch>)
    ensures r.Ok? ==> |r.rest| < |ts|
    decreases |ts|, 1
  {
    match ParseExpr(ts)
    case Err(_) => Err(false)
    case Ok(cond, afterCond) =>
      match ParseBody(afterCond)
      case Err(fatal) => Err(fatal)
      case Ok(block, rest) => Ok(Branch(cond, block), rest)
  }

  /** What follows a branch: `else if`, so that another branch comes; `else` and a body; or
      neither. */
  function ParseElse(ts: seq<Token>): (r: Parsed<(bool, Option<Block>)>)
    ensures r.Ok? ==> |r.rest| <= |ts|
    decreases |ts|, 1
  {
    if Head(ts) != Else then Ok((false, None), ts)
    else if Head(Advance(ts)) == If then Ok((true, None), Advance(Advance(ts)))
    else
      match ParseBody(Advance(ts))
      case Err(fatal) => Err(fatal)
      case Ok(block, rest) => Ok((false, Some(block)), rest)
  }

  function ParseBranches(ts: seq<Token>): (r: Parsed<(seq<Branch>, Option<Block>)>)
    ensures r.Ok? ==> |r.rest| < |ts|
    decreases |ts|, 2
  {
    match ParseBranch(ts)
    case Err(fatal) => Err(fatal)
    case Ok(b, afterBranch) =>
      match ParseElse(afterBranch)
      case Err(fatal) => Err(fatal)
      case Ok((more, tailElse), rest) =>
        if !more then Ok(([b], tailElse), rest) else
          match ParseBranches(rest)
          case Err(fatal) => Err(fatal)
          case Ok((branches, lastElse), last) => Ok(([b] + branches, lastElse), last)
  }

  function ParseIf(ts: seq<Token>): (r: Parsed<Node>)
    ensures r.Ok? ==> |r.rest| < |ts|
    decreases |ts|, 2
  {
    if Head(ts) != If then Err(false) else
      match ParseBranches(Advance(ts))
      case Err(fatal) => Err(fatal)
      case Ok((branches, tailElse), rest) => Ok(IfNode(branches, tailElse), rest)
  }

  /** The three parts of a loop header are optional; an error in one, even a fatal one,
      only makes it absent. */
  function ParseInit(ts: seq<Token>): (r: (Option<Declaration>, seq<Token>))
    ensures |r.1| <= |ts|
  {
    match ParseDeclaration(ts) case Ok(d, r) => (Some(d), r) case Err(_) => (None, ts)
  }

  function ParseCond(ts: seq<Token>): (r: (Option<Expr>, seq<Token>))
    ensures |r.1| <= |ts|
  {
    match ParseExpr(ts) case Ok(e, r) => (Some(e), r) case Err(_) => (None, ts)
  }

  function ParseStep(ts: seq<Token>): (r: (Option<Assignment>, seq<Token>))
    ensures |r.1| <= |ts|
  {
    match ParseAssignment(ts) case Ok(a, r) => (Some(a), r) case Err(_) => (None, ts)
  }

  function ParseFor(ts: seq<Token>): (r: Parsed<Node>)
    ensures r.Ok? ==> |r.rest| < |ts|
    decreases |ts|, 1
  {
    if Head(ts) != For then Err(false) else
      var (init, a) := ParseInit(Advance(ts));
      if Head(a) != Semicolon then Err(false) else
        var (cond, b) := ParseCond(Advance(a));
        if Head(b) != Semicolon then Err(false) else
          var (step, c) := ParseStep(Advance(b));
          match ParseBody(c)
          case Err(fatal) => Err(fatal)
          case Ok(block, rest) => Ok(ForNode(init, cond, step, block), rest)
  }

  /** The statement parsers in the order the block tries them; a fatal error stops. */
  function ParseNode(ts: seq<Token>): (r: Parsed<Node>)
    ensures r.Ok? ==> |r.rest| < |ts|
    decreases |ts|, 4
  {
    match ParseDeclaration(ts)
    case Ok(d, rest) => Ok(DeclNode(d), rest)
    case Err(fatal0) =>
      if fatal0 then Err(true) else
        match ParseAssignment(ts)
        case Ok(a, rest) => Ok(AsgnNode(a), rest)
        case Err(fatal1) =>
          if fatal1 then Err(true) else
            match ParseExpr(ts)
            case Ok(e, rest) => Ok(ExprNode(e), rest)
            case Err(fatal2) => if fatal2 then Err(true) else ParseKeywordNode(ts)
  }

  function ParseKeywordNode(ts: seq<Token>): (r: Parsed<Node>)
    ensures r.Ok? ==> |r.rest| < |ts|
    decreases |ts|, 3
  {
    var a := ParseIf(ts);
    if a != Err(false) then a else
      var b := ParseFunction(ts);
      if b != Err(false) then b else
        var c := ParseReturn(ts);
        if c != Err(false) then c else
          var d := ParseFor(ts);
          if d != Err(false) then d else ParseTypedef(ts)
  }

  function ParseNodes(ts: seq<Token>): (r: Parsed<seq<Node>>)
    ensures r.Ok? ==> |r.rest| <= |ts|
    decreases |ts|, 5
  {
    var t := SkipNewlines(ts);
    match ParseNode(t)
    case Err(fatal) => if fatal then Err(true) else Ok([], t)
    case Ok(n, rest) =>
      match ParseNodes(rest)
      case Err(fatal) => Err(fatal)
      case Ok(nodes, last) => Ok([n] + nodes, last)
  }

  function ParseBlock(ts: seq<Token>): (r: Parsed<Block>)
    ensures r.Ok? ==> |r.rest| <= |ts|
    decreases |ts|, 6
  {
    match ParseNodes(ts)
    case Err(fatal) => Err(fatal)
    case Ok(nodes, rest) => Ok(Block(nodes), rest)
  }

  /** A whole source file: a block, newlines, the end. */
  function ParseRoot(ts: seq<Token>): (r: Parsed<Block>) {
    match ParseBlock(ts)
    case Err(fatal) => Err(fatal)
    case Ok(block, rest) => if SkipNewlines(rest) != [] then Err(false) else Ok(block, [])
  }
}
