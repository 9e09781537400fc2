/** The expression parser on a list of tokens: what it returns and what it leaves. An
    error leaves nothing to return: the caller's tokens are as before. */
module ExprParser {
  import opened Tokens
  import opened Ast
  import opened ExprCompiler
  import opened Grammar

  datatype Parsed<+T> = Ok(value: T, rest: seq<Token>) | Err(fatal: bool)

  /** The kind of the next token; Enf at the end. */
  function Head(ts: seq<Token>): Kind {
    if ts == [] then Enf else ts[0].Kind()
  }

  /** `Next` skips the current token; at the end it stays there. */
  function Advance(ts: seq<Token>): seq<Token> {
    if ts == [] then [] else ts[1..]
  }

  function ParseToken(ts: seq<Token>): (r: Parsed<Expr>)
    ensures r.Ok? ==> |r.rest| < |ts|
  {
    if LiteralKind(Head(ts)) then Ok(Atom(ts[0]), ts[1..]) else Err(false)
  }

  function ParseFuncall(ts: seq<Token>): (r: Parsed<Expr>)
    ensures r.Ok? ==> |r.rest| < |ts|
    decreases |ts|, 0
  {
    match ParseToken(ts)
    case Err(_) => Err(false)
    case Ok(f, afterName) =>
      if Head(afterName) != LParent then Err(false) else
        var (args, afterArgs) := ParseArgs(Advance(afterName));
        if Head(afterArgs) != RParent then Err(false) else Ok(Funcall([f] + args), Advance(afterArgs))
  }

  function ParseArgs(ts: seq<Token>): (r: (seq<Expr>, seq<Token>))
    ensures |r.1| <= |ts|
    decreases |ts|, 6
  {
    match Parse(ts, 3)
    case Err(_) => ([], ts)
    case Ok(e, rest) =>
      if Head(rest) != Comma then ([e], rest) else
        var (es, last) := ParseArgs(Advance(rest));
        ([e] + es, last)
  }

  function ParseAtomic(ts: seq<Token>): (r: Parsed<Expr>)
    ensures r.Ok? ==> |r.rest| < |ts|
    decreases |ts|, 1
  {
    var call := ParseFuncall(ts);
    if call.Ok? then call
    else if Head(ts) == Sub then
      match ParseToken(Advance(ts))
      case Err(_) => Err(false)
      case Ok(e, rest) => Ok(Ops([Kind.Sub], [e]), rest)
    else ParseToken(ts)
  }

  /** The precedence chain: `parse_atomic`, `parse_with_star`, `parse_with_plus` and
      `parse_with_greater` are its levels 0 to 3. */
  function Parse(ts: seq<Token>, level: nat): (r: Parsed<Expr>)
    requires level <= 3
    ensures r.Ok? ==> |r.rest| < |ts|
    decreases |ts|, level + 2
  {
    if level == 0 then ParseAtomic(ts) else
      match Parse(ts, level - 1)
      case Err(_) => Err(false)
      case Ok(e0, rest) =>
        if Head(rest) !in OpsAt(level) then Ok(e0, rest)
        else if level == 3 then
          match Parse(Advance(rest), 2)
          case Err(_) => Err(false)
          case Ok(e1, last) => Ok(Ops([Head(rest)], [e0, e1]), last)
        else
          match ParseRest(rest, level)
          case Err(_) => Err(false)
          case Ok((ops, exprs), last) => Ok(Ops(ops, [e0] + exprs), last)
  }

  /** The loop of a level: operators and operands as long as there are operators. */
  function ParseRest(ts: seq<Token>, level: nat): (r: Parsed<(seq<Kind>, seq<Expr>)>)
    requires 1 <= level <= 2
    ensures r.Ok? ==> |r.rest| <= |ts|
    decreases |ts|, 0
  {
    if Head(ts) !in OpsAt(level) then Ok(([], []), ts) else
      match Parse(Advance(ts), level - 1)
      case Err(_) => Err(false)
      case Ok(e, rest) =>
        match ParseRest(rest, level)
        case Err(_) => Err(false)
        case Ok((ops, exprs), last) => Ok(([Head(ts)] + ops, [e] + exprs), last)
  }

  function ParseExpr(ts: seq<Token>): (r: Parsed<Expr>)
    ensures r.Ok? ==> |r.rest| < |ts|
  {
    Parse(ts, 3)
  }
}
