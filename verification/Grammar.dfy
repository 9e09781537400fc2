/** The trees the expression parser builds, and the tokens they are written with. */
module Grammar {
  import opened Tokens
  import opened Ast
  import opened ExprCompiler

  predicate LiteralKind(k: Kind) {
    k in {Int, Float, Str, True, False, Symbol}
  }

  /** The operators of a precedence level: 3 compares, 2 adds, 1 multiplies. */
  function OpsAt(level: nat): set<Kind> {
    if level == 3 then {Greater, Less, Equal}
    else if level == 2 then {Plus, Sub}
    else if level == 1 then {Star, Slash}
    else {}
  }

  /** Trees of a level: level 0 is a literal, a negated literal or a call; above it, a tree
      of the level below, or a node with that level's operators (one, for comparisons)
      between trees of the level below. */
  predicate Shaped(e: Expr, level: nat)
    requires level <= 3
    decreases e, level
  {
    if level == 0 then
      match e
      case Atom(v) => LiteralKind(v.Kind())
      case Ops(_, exprs) => Negation(e) && exprs[0].Atom? && LiteralKind(exprs[0].v.Kind())
      case Funcall(exprs) =>
        && exprs != [] && exprs[0].Atom? && LiteralKind(exprs[0].v.Kind())
        && forall i :: 1 <= i < |exprs| ==> Shaped(exprs[i], 3)
    else Shaped(e, level - 1) || ShapedNode(e, level)
  }

  predicate ShapedNode(e: Expr, level: nat)
    requires 1 <= level <= 3
    decreases e, level, 0
  {
    && e.Ops? && |e.ops| >= 1 && |e.exprs| == |e.ops| + 1
    && (level == 3 ==> |e.ops| == 1)
    && (forall i :: 0 <= i < |e.ops| ==> e.ops[i] in OpsAt(level))
    && (forall i :: 0 <= i < |e.exprs| ==> Shaped(e.exprs[i], level - 1))
  }

  /** The tokens of an expression. */
  function Yield(e: Expr): seq<Token>
    decreases e, 1
  {
    match e
    case Atom(v) => [v]
    case Ops(_, exprs) =>
      if exprs == [] then []
      else if Negation(e) then [Plain(Kind.Sub)] + Yield(exprs[0])
      else Yield(exprs[0]) + YieldOps(e, 0)
    case Funcall(exprs) =>
      if exprs == [] then []
      else Yield(exprs[0]) + ([Plain(LParent)] + (YieldArgs(e, 1) + [Plain(RParent)]))
  }

  function YieldOps(e: Expr, i: nat): seq<Token>
    requires e.Ops?
    decreases e, 0, |e.ops| - i
  {
    if i >= |e.ops| || i + 1 >= |e.exprs| then [] else
      [Plain(e.ops[i])] + (Yield(e.exprs[i + 1]) + YieldOps(e, i + 1))
  }

  function YieldArgs(e: Expr, i: nat): seq<Token>
    requires e.Funcall?
    decreases e, 0, |e.exprs| - i
  {
    if i >= |e.exprs| then []
    else if i + 1 == |e.exprs| then Yield(e.exprs[i])
    else Yield(e.exprs[i]) + ([Plain(Comma)] + YieldArgs(e, i + 1))
  }

  /** How deeply calls are nested in an expression. */
  function CallDepth(e: Expr): nat
    decreases e, 1
  {
    match e
    case Atom(_) => 0
    case Ops(_, _) => MaxCallDepth(e, 0)
    case Funcall(_) => 1 + MaxCallDepth(e, 1)
  }

  function MaxCallDepth(e: Expr, i: nat): (d: nat)
    requires !e.Atom?
    ensures forall k :: i <= k < |e.exprs| ==> CallDepth(e.exprs[k]) <= d
    decreases e, 0, |e.exprs| - i
  {
    if i >= |e.exprs| then 0 else Max(CallDepth(e.exprs[i]), MaxCallDepth(e, i + 1))
  }
}
