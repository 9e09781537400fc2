/** Expressions have no parentheses, so the flat ones are all the arithmetic there is. */
module FlatCover {
  import opened Wrappers
  import opened Words
  import opened Tokens
  import opened Ast
  import opened ExprCompiler
  import opened Grammar
  import opened Flat
  import opened FlatTree
  import opened StmtCorrect
  import L = Loose
  import PP = ExprParserProofs

  lemma {:induction false} Flatten(e: Expr, level: nat) returns (xs: seq<Operand>, ops: seq<Kind>)
    requires level <= 3 && Arithmetic(e) && Shaped(e, level)
    ensures FlatOps(xs, ops) && Yield(e) == FlatTokens(xs, ops)
    decreases e, 1, level
  {
    if level == 0 {
      PP.TokensOfAtomic(e);
      var x := if e.Atom? then Operand(false, e.v.i) else Operand(true, e.exprs[0].v.i);
      OneToken(x);
      xs, ops := [x], [];
    } else if Shaped(e, level - 1) {
      xs, ops := Flatten(e, level - 1);
    } else {
      PP.NodeOf(e, level);
      NodeTokens(e);
      xs, ops := FlattenList(e, level, |e.ops|);
      assert e.ops[..|e.ops|] == e.ops && e.exprs[..|e.ops| + 1] == e.exprs;
    }
  }

  lemma {:induction false} FlattenList(e: Expr, level: nat, n: nat) returns (xs: seq<Operand>, ops: seq<Kind>)
    requires 1 <= level <= 3 && ShapedNode(e, level) && Arithmetic(e) && !Negation(e) && n <= |e.ops|
    ensures FlatOps(xs, ops) && ListTokens(e.ops[..n], e.exprs[..n + 1]) == FlatTokens(xs, ops)
    decreases e, 0, n
  {
    hide Yield, FlatTokens;
    ArithmeticNode(e);
    if n == 0 {
      xs, ops := Flatten(e.exprs[0], level - 1);
    } else {
      var a, o := FlattenList(e, level, n - 1);
      var b, q := Flatten(e.exprs[n], level - 1);
      xs, ops := a + b, o + ([e.ops[n - 1]] + q);
      TokensSplit(xs, ops, |o|);
      assert xs[..|o| + 1] == a && xs[|o| + 1..] == b && ops[..|o|] == o && ops[|o| + 1..] == q;
      assert e.ops[..n][..n - 1] == e.ops[..n - 1] && e.exprs[..n + 1][..n] == e.exprs[..n];
    }
  }

  /** Every arithmetic tree that parsing can build is the tree of a flat expression, and its
      compiled and its written value are the flat ones. */
  lemma EveryTreeIsFlat(e: Expr) returns (xs: seq<Operand>, ops: seq<Kind>)
    requires Arithmetic(e) && Shaped(e, 3)
    ensures FlatOps(xs, ops) && e == Tree(xs, ops) && Yield(e) == FlatTokens(xs, ops)
    ensures CodeValue(e) == FlatValue(false, xs, ops) && RefValue(e) == FlatValue(true, xs, ops)
  {
    hide Yield, L.LooseExpr, L.Matches, Shaped, Arithmetic, FlatTokens, Tree, FlatValue, CodeValue, RefValue;
    xs, ops := Flatten(e, 3);
    TreeYield(xs, ops);
    TreeValue(true, xs, ops);
    TreeValue(false, xs, ops);
    L.YieldMatches(e);
    L.YieldMatches(Tree(xs, ops));
    PP.Unambiguous(e, Tree(xs, ops), Yield(e));
  }
}
