/** The tree the parser builds for a flat expression, its tokens and its value. */
module FlatTree {
  import opened Wrappers
  import opened Words
  import opened Tokens
  import opened Ast
  import opened ExprCompiler
  import opened Grammar
  import opened Flat
  import opened StmtCorrect

  function OperandExpr(x: Operand): Expr {
    var literal := Atom(IntToken(x.n));
    if x.negated then Ops([Kind.Sub], [literal]) else literal
  }

  function Term(xs: seq<Operand>, ops: seq<Kind>): Expr
    requires |xs| == |ops| + 1
  {
    if ops == [] then OperandExpr(xs[0]) else Ops(ops, seq(|xs|, i requires 0 <= i < |xs| => OperandExpr(xs[i])))
  }

  /** The + and - operators, and the terms between them. */
  function Terms(xs: seq<Operand>, ops: seq<Kind>): (r: (seq<Kind>, seq<Expr>))
    requires FlatOps(xs, ops)
    ensures |r.1| == |r.0| + 1
    decreases |ops|
  {
    if ops == [] || !Additive(ops[SplitAt(ops)]) then ([], [Term(xs, ops)]) else
      var k := SplitAt(ops);
      var (o, t) := Terms(xs[..k + 1], ops[..k]);
      (o + [ops[k]], t + [Term(xs[k + 1..], ops[k + 1..])])
  }

  function Tree(xs: seq<Operand>, ops: seq<Kind>): Expr
    requires FlatOps(xs, ops)
  {
    var (o, t) := Terms(xs, ops);
    if o == [] then t[0] else Ops(o, t)
  }

  // ----- nodes read from the right -----

  ghost function ListValue(written: bool, ops: seq<Kind>, exprs: seq<Expr>): Option<i32>
    requires |exprs| == |ops| + 1 && (forall k :: 0 <= k < |ops| ==> BinOp(ops[k]).Some?)
    requires forall k :: 0 <= k < |exprs| ==> Arithmetic(exprs[k])
    decreases |ops|
  {
    if ops == [] then Value(written, exprs[0]) else
      var n := |ops| - 1;
      Join(written, ops[n], ListValue(written, ops[..n], exprs[..n + 1]), Value(written, exprs[n + 1]))
  }

  function FoldOf(written: bool, e: Expr, i: nat, acc: i32): Option<i32>
    requires e.Ops? && Arithmetic(e) && !Negation(e) && i <= |e.ops|
  {
    if written then RefFold(e, i, acc) else CodeFold(e, i, acc)
  }

  lemma ListStep(written: bool, ops: seq<Kind>, exprs: seq<Expr>, i: nat)
    requires |exprs| == |ops| + 1 && (forall k :: 0 <= k < |ops| ==> BinOp(ops[k]).Some?)
    requires (forall k :: 0 <= k < |exprs| ==> Arithmetic(exprs[k])) && i < |ops|
    ensures ListValue(written, ops[..i + 1], exprs[..i + 2]) ==
            Join(written, ops[i], ListValue(written, ops[..i], exprs[..i + 1]), Value(written, exprs[i + 1]))
  {
    hide Join, Value, BinOp, Arithmetic;
    assert ops[..i + 1][..i] == ops[..i] && exprs[..i + 2][..i + 1] == exprs[..i + 1];
  }

  /** A prefix without a value leaves the whole without one. */
  lemma {:induction false} NothingStays(written: bool, ops: seq<Kind>, exprs: seq<Expr>, i: nat)
    requires |exprs| == |ops| + 1 && (forall k :: 0 <= k < |ops| ==> BinOp(ops[k]).Some?)
    requires (forall k :: 0 <= k < |exprs| ==> Arithmetic(exprs[k])) && i <= |ops|
    requires ListValue(written, ops[..i], exprs[..i + 1]) == None
    ensures ListValue(written, ops, exprs) == None
    decreases |ops| - i
  {
    hide ListValue;
    if i < |ops| {
      ListStep(written, ops, exprs, i);
      NothingStays(written, ops, exprs, i + 1);
    } else {
      assert ops[..i] == ops && exprs[..i + 1] == exprs;
    }
  }

  lemma {:induction false} FoldIsList(written: bool, e: Expr, i: nat, acc: i32)
    requires e.Ops? && Arithmetic(e) && !Negation(e) && i <= |e.ops|
    requires ListValue(written, e.ops[..i], e.exprs[..i + 1]) == Some(acc)
    ensures FoldOf(written, e, i, acc) == ListValue(written, e.ops, e.exprs)
    decreases |e.ops| - i
  {
    hide ListValue, ArithI32;
    if i < |e.ops| {
      ListStep(written, e.ops, e.exprs, i);
      var v := Value(written, e.exprs[i + 1]);
      var next := Join(written, e.ops[i], Some(acc), v);
      if next.None? {
        NothingStays(written, e.ops, e.exprs, i + 1);
      } else {
        FoldIsList(written, e, i + 1, next.value);
      }
    } else {
      assert e.ops[..i] == e.ops && e.exprs[..i + 1] == e.exprs;
    }
  }

  lemma NodeValue(written: bool, e: Expr)
    requires e.Ops? && Arithmetic(e) && !Negation(e)
    ensures Value(written, e) == ListValue(written, e.ops, e.exprs)
  {
    hide Arithmetic;
    assert |e.exprs| == |e.ops| + 1 && Arithmetic(e.exprs[0]) by { ArithmeticNode(e); }
    assert e.ops[..0] == [] && e.exprs[..1] == [e.exprs[0]];
    assert ListValue(written, e.ops[..0], e.exprs[..1]) == Value(written, e.exprs[0]);
    if Value(written, e.exprs[0]).None? {
      ArithmeticNode(e);
      NothingStays(written, e.ops, e.exprs, 0);
    } else {
      FoldIsList(written, e, 0, Value(written, e.exprs[0]).value);
    }
  }

  lemma ArithmeticNode(e: Expr)
    requires e.Ops? && Arithmetic(e) && !Negation(e)
    ensures |e.exprs| == |e.ops| + 1 && (forall k :: 0 <= k < |e.ops| ==> BinOp(e.ops[k]).Some?)
    ensures forall k :: 0 <= k < |e.exprs| ==> Arithmetic(e.exprs[k])
  {
  }

  // ----- the value of the tree -----

  lemma OperandIs(written: bool, x: Operand)
    ensures Arithmetic(OperandExpr(x)) && Shaped(OperandExpr(x), 0) && Yield(OperandExpr(x)) == OperandTokens(x)
    ensures Value(written, OperandExpr(x)) == OperandValue(x)
  {
    var literal := Atom(IntToken(x.n));
    assert Arithmetic(literal) && Yield(literal) == [IntToken(x.n)];
    assert CodeValue(literal) == RefValue(literal) == Some(x.n);
    if x.negated {
      assert ArithI32(Arith.Mul, x.n, -1) == ArithI32(Arith.Sub, 0, x.n);
    }
  }

  lemma TermArithmetic(xs: seq<Operand>, ops: seq<Kind>)
    requires FlatOps(xs, ops)
    ensures Arithmetic(Term(xs, ops)) && (ops != [] ==> !Negation(Term(xs, ops)))
    ensures (forall k :: 0 <= k < |ops| ==> !Additive(ops[k])) ==> Shaped(Term(xs, ops), 1)
  {
    forall x: Operand ensures Arithmetic(OperandExpr(x)) && Shaped(OperandExpr(x), 0) {
      OperandIs(true, x);
    }
    if (forall k :: 0 <= k < |ops| ==> !Additive(ops[k])) && ops != [] {
      assert forall k :: 0 <= k < |ops| ==> ops[k] in OpsAt(1);
      assert ShapedNode(Term(xs, ops), 1);
    }
  }

  lemma {:induction false} TermList(written: bool, xs: seq<Operand>, ops: seq<Kind>)
    requires FlatOps(xs, ops) && forall k :: 0 <= k < |ops| ==> !Additive(ops[k])
    ensures var exprs := seq(|xs|, i requires 0 <= i < |xs| => OperandExpr(xs[i]));
            && (forall k :: 0 <= k < |exprs| ==> Arithmetic(exprs[k]))
            && ListValue(written, ops, exprs) == FlatValue(written, xs, ops)
    decreases |ops|
  {
    hide FlatValue, Join, BinOp, Value, Arithmetic, OperandExpr;
    var exprs := seq(|xs|, i requires 0 <= i < |xs| => OperandExpr(xs[i]));
    forall k | 0 <= k < |exprs| ensures Arithmetic(exprs[k]) && Value(written, exprs[k]) == OperandValue(xs[k]) {
      OperandIs(written, xs[k]);
    }
    if ops == [] {
      OneOperand(written, xs);
    } else {
      var n := |ops| - 1;
      assert SplitAt(ops) == n;
      FlatSplit(written, xs, ops);
      OneOperand(written, xs[n + 1..]);
      assert ops[n + 1..] == [];
      TermList(written, xs[..n + 1], ops[..n]);
      assert exprs[..n + 1] == seq(|xs[..n + 1]|, i requires 0 <= i < |xs[..n + 1]| => OperandExpr(xs[..n + 1][i]));
    }
  }

  lemma TermValue(written: bool, xs: seq<Operand>, ops: seq<Kind>)
    requires FlatOps(xs, ops) && forall k :: 0 <= k < |ops| ==> !Additive(ops[k])
    ensures Arithmetic(Term(xs, ops)) && Value(written, Term(xs, ops)) == FlatValue(written, xs, ops)
  {
    hide FlatValue, Value, ListValue, Arithmetic;
    TermArithmetic(xs, ops);
    if ops == [] {
      OperandIs(written, xs[0]);
      OneOperand(written, xs);
    } else {
      NodeValue(written, Term(xs, ops));
      TermList(written, xs, ops);
    }
  }

  lemma {:induction false} TermsValue(written: bool, xs: seq<Operand>, ops: seq<Kind>)
    requires FlatOps(xs, ops)
    ensures var (o, t) := Terms(xs, ops);
            && (forall k :: 0 <= k < |o| ==> Additive(o[k]) && BinOp(o[k]).Some?)
            && (forall k :: 0 <= k < |t| ==> Arithmetic(t[k]) && Shaped(t[k], 1))
            && ListValue(written, o, t) == FlatValue(written, xs, ops)
    decreases |ops|
  {
    hide FlatValue, Value, Arithmetic, Shaped, Join, Term, Additive;
    if ops == [] || !Additive(ops[SplitAt(ops)]) {
      TermValue(written, xs, ops);
      TermArithmetic(xs, ops);
    } else {
      var k := SplitAt(ops);
      TermsValue(written, xs[..k + 1], ops[..k]);
      TermValue(written, xs[k + 1..], ops[k + 1..]);
      TermArithmetic(xs[k + 1..], ops[k + 1..]);
      FlatSplit(written, xs, ops);
      var (o, t) := Terms(xs[..k + 1], ops[..k]);
      var last := Term(xs[k + 1..], ops[k + 1..]);
      assert (o + [ops[k]])[..|o|] == o && (t + [last])[..|t|] == t;
    }
  }

  /** The tree means what the flat expression means, compiled as well as written. */
  lemma TreeValue(written: bool, xs: seq<Operand>, ops: seq<Kind>)
    requires FlatOps(xs, ops)
    ensures var e := Tree(xs, ops);
            Arithmetic(e) && Shaped(e, 3) && Value(written, e) == FlatValue(written, xs, ops)
  {
    hide FlatValue, Value, Terms;
    TermsValue(written, xs, ops);
    var (o, t) := Terms(xs, ops);
    if o == [] {
      assert Shaped(t[0], 2);
    } else {
      var e := Ops(o, t);
      NodeValue(written, e);
      assert ShapedNode(e, 2);
      assert Shaped(e, 2);
    }
  }

  // ----- the tokens of the tree -----

  ghost function ListTokens(ops: seq<Kind>, exprs: seq<Expr>): seq<Token>
    requires |exprs| == |ops| + 1
  {
    if ops == [] then Yield(exprs[0]) else
      var n := |ops| - 1;
      ListTokens(ops[..n], exprs[..n + 1]) + ([Plain(ops[n])] + Yield(exprs[n + 1]))
  }

  lemma {:induction false} OpsFollow(e: Expr, i: nat)
    requires e.Ops? && |e.exprs| == |e.ops| + 1 && i <= |e.ops|
    ensures ListTokens(e.ops[..i], e.exprs[..i + 1]) + YieldOps(e, i) == ListTokens(e.ops, e.exprs)
    decreases |e.ops| - i
  {
    hide Yield;
    if i < |e.ops| {
      OpsFollow(e, i + 1);
      assert e.ops[..i + 1][..i] == e.ops[..i] && e.exprs[..i + 2][..i + 1] == e.exprs[..i + 1];
      var front, op := ListTokens(e.ops[..i], e.exprs[..i + 1]), [Plain(e.ops[i])];
      var x, more := Yield(e.exprs[i + 1]), YieldOps(e, i + 1);
      assert front + (op + (x + more)) == front + (op + x) + more;
    } else {
      assert e.ops[..i] == e.ops && e.exprs[..i + 1] == e.exprs;
      assert ListTokens(e.ops, e.exprs) + [] == ListTokens(e.ops, e.exprs);
    }
  }

  lemma NodeTokens(e: Expr)
    requires e.Ops? && |e.exprs| == |e.ops| + 1 && e.ops != []
    ensures Yield(e) == ListTokens(e.ops, e.exprs)
  {
    OpsFollow(e, 0);
    assert e.ops[..0] == [] && e.exprs[..1] == [e.exprs[0]];
  }

  lemma OneToken(x: Operand)
    ensures FlatTokens([x], []) == OperandTokens(x)
  {
    hide OperandTokens;
  }

  lemma LastTokens(xs: seq<Operand>, ops: seq<Kind>)
    requires |xs| == |ops| + 1 && ops != []
    ensures FlatTokens(xs, ops) ==
            FlatTokens(xs[..|ops|], ops[..|ops| - 1]) + ([Plain(ops[|ops| - 1])] + OperandTokens(xs[|ops|]))
  {
    hide OperandTokens;
  }

  lemma {:induction false} TokensSplit(xs: seq<Operand>, ops: seq<Kind>, k: nat)
    requires |xs| == |ops| + 1 && k < |ops|
    ensures FlatTokens(xs, ops) ==
            FlatTokens(xs[..k + 1], ops[..k]) + ([Plain(ops[k])] + FlatTokens(xs[k + 1..], ops[k + 1..]))
    decreases |ops|
  {
    hide OperandTokens, FlatTokens;
    var n := |ops| - 1;
    if k == n {
      assert ops[k + 1..] == [] && xs[k + 1..] == [xs[n + 1]];
      OneToken(xs[n + 1]);
      LastTokens(xs, ops);
      assert xs[..n + 1] == xs[..|ops|];
    } else {
      var ys, qs := xs[..n + 1], ops[..n];
      TokensSplit(ys, qs, k);
      assert ys[..k + 1] == xs[..k + 1] && qs[..k] == ops[..k];
      var zs, rs := xs[k + 1..], ops[k + 1..];
      assert zs[..|rs|] == ys[k + 1..] && rs[..|rs| - 1] == qs[k + 1..];
      assert zs[|rs|] == xs[n + 1] && rs[|rs| - 1] == ops[n];
      var a, op, b, c := FlatTokens(ys[..k + 1], qs[..k]), [Plain(ops[k])], FlatTokens(ys[k + 1..], qs[k + 1..]),
                         [Plain(ops[n])] + OperandTokens(xs[n + 1]);
      LastTokens(xs, ops);
      LastTokens(zs, rs);
      assert a + (op + b) + c == a + (op + (b + c));
    }
  }

  lemma {:induction false} TermTokens(xs: seq<Operand>, ops: seq<Kind>)
    requires |xs| == |ops| + 1
    ensures ListTokens(ops, seq(|xs|, i requires 0 <= i < |xs| => OperandExpr(xs[i]))) == FlatTokens(xs, ops)
    decreases |ops|
  {
    hide OperandExpr, Yield, OperandTokens;
    var exprs := seq(|xs|, i requires 0 <= i < |xs| => OperandExpr(xs[i]));
    OperandIs(true, xs[|ops|]);
    if ops != [] {
      var n := |ops| - 1;
      TermTokens(xs[..n + 1], ops[..n]);
      assert exprs[..n + 1] == seq(|xs[..n + 1]|, i requires 0 <= i < |xs[..n + 1]| => OperandExpr(xs[..n + 1][i]));
    }
  }

  lemma TermYield(xs: seq<Operand>, ops: seq<Kind>)
    requires |xs| == |ops| + 1
    ensures Yield(Term(xs, ops)) == FlatTokens(xs, ops)
  {
    hide Yield, OperandExpr, ListTokens;
    if ops == [] {
      OperandIs(true, xs[0]);
    } else {
      TermTokens(xs, ops);
      NodeTokens(Term(xs, ops));
    }
  }

  lemma {:induction false} TermsYield(xs: seq<Operand>, ops: seq<Kind>)
    requires FlatOps(xs, ops)
    ensures var (o, t) := Terms(xs, ops); ListTokens(o, t) == FlatTokens(xs, ops)
    decreases |ops|
  {
    hide Yield, Term, FlatTokens, Additive;
    if ops == [] || !Additive(ops[SplitAt(ops)]) {
      TermYield(xs, ops);
    } else {
      var k := SplitAt(ops);
      TermsYield(xs[..k + 1], ops[..k]);
      TermYield(xs[k + 1..], ops[k + 1..]);
      TokensSplit(xs, ops, k);
      var (o, t) := Terms(xs[..k + 1], ops[..k]);
      var last := Term(xs[k + 1..], ops[k + 1..]);
      assert (o + [ops[k]])[..|o|] == o && (t + [last])[..|t|] == t;
    }
  }

  /** The tree is written as the flat expression. */
  lemma TreeYield(xs: seq<Operand>, ops: seq<Kind>)
    requires FlatOps(xs, ops)
    ensures Yield(Tree(xs, ops)) == FlatTokens(xs, ops)
  {
    hide Yield, Terms;
    TermsYield(xs, ops);
    var (o, t) := Terms(xs, ops);
    if o != [] {
      NodeTokens(Ops(o, t));
    }
  }
}
