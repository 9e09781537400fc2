/** When compiled arithmetic means what was written. The compiler hands each operator
    its new operand first and the accumulated value second, so that - and / work
    on swapped operands. */
module Agreement {
  import opened Wrappers
  import opened Words
  import opened Tokens
  import opened Ast
  import opened ExprCompiler

  /** Every operator between two operands, at any depth, is + or *. */
  predicate Symmetric(e: Expr) {
    match e
    case Atom(_) => true
    case Ops(ops, exprs) =>
      && (Negation(e) || (forall i :: 0 <= i < |ops| ==> ops[i] in {Plus, Star}))
      && (forall i :: 0 <= i < |exprs| ==> Symmetric(exprs[i]))
    case Funcall(exprs) => forall i :: 0 <= i < |exprs| ==> Symmetric(exprs[i])
  }

  /** Without - and / between operands, the compiled value is the written one: the same
      number, or undefined together. */
  lemma {:induction false} SymmetricAgrees(e: Expr)
    requires Arithmetic(e) && Symmetric(e)
    ensures CodeValue(e) == RefValue(e)
    decreases e, 1
  {
    if e.Ops? {
      SymmetricAgrees(e.exprs[0]);
      if !Negation(e) && CodeValue(e.exprs[0]).Some? {
        FoldAgrees(e, 0, CodeValue(e.exprs[0]).value);
      }
    }
  }

  lemma {:induction false} FoldAgrees(e: Expr, i: nat, acc: i32)
    requires Arithmetic(e) && Symmetric(e) && e.Ops? && !Negation(e) && i <= |e.ops|
    ensures CodeFold(e, i, acc) == RefFold(e, i, acc)
    decreases e, 0, |e.ops| - i
  {
    if i < |e.ops| {
      var x, op := e.exprs[i + 1], BinOp(e.ops[i]).value;
      SymmetricAgrees(x);
      assert e.ops[i] in {Plus, Star};
      if CodeValue(x).Some? {
        ArithSymmetric(op, acc, CodeValue(x).value);
        var r := ArithI32(op, acc, CodeValue(x).value);
        if r.Some? {
          FoldAgrees(e, i + 1, r.value);
        }
      }
    }
  }

  lemma ArithSymmetric(op: Arith, a: i32, b: i32)
    requires op == Arith.Add || op == Arith.Mul
    ensures ArithI32(op, a, b) == ArithI32(op, b, a)
  {
    assert a * b == b * a;
  }

  /** The operand values for which swapping them makes no difference. */
  predicate SwapSafe(k: Kind, a: i32, b: i32) {
    match k
    case Sub => a == b
    case Slash => a == b || a + b == 0
    case _ => true
  }

  /** For one operator between operands that themselves agree, and whose written value is
      defined, the compiled value is right exactly when the operands are swap-safe. */
  lemma OneOperatorExact(e: Expr)
    requires Arithmetic(e) && e.Ops? && |e.ops| == 1 && |e.exprs| == 2
    requires CodeValue(e.exprs[0]) == RefValue(e.exprs[0]) && CodeValue(e.exprs[1]) == RefValue(e.exprs[1])
    requires RefValue(e).Some?
    ensures RefValue(e.exprs[0]).Some? && RefValue(e.exprs[1]).Some?
    ensures CodeValue(e) == RefValue(e)
       <==> SwapSafe(e.ops[0], RefValue(e.exprs[0]).value, RefValue(e.exprs[1]).value)
  {
    var a := RefValue(e.exprs[0]).value;
    assert RefValue(e) == RefFold(e, 0, a);
    assert RefValue(e.exprs[1]).Some?;
    var b, op := RefValue(e.exprs[1]).value, BinOp(e.ops[0]).value;
    assert RefFold(e, 0, a) == ArithI32(op, a, b) by {
      if ArithI32(op, a, b).Some? { assert RefFold(e, 1, ArithI32(op, a, b).value) == ArithI32(op, a, b); }
    }
    assert CodeFold(e, 0, a) == ArithI32(op, b, a) by {
      if ArithI32(op, b, a).Some? { assert CodeFold(e, 1, ArithI32(op, b, a).value) == ArithI32(op, b, a); }
    }
    SwapExact(e.ops[0], a, b);
  }

  lemma SwapExact(k: Kind, a: i32, b: i32)
    requires BinOp(k).Some? && ArithI32(BinOp(k).value, a, b).Some?
    ensures ArithI32(BinOp(k).value, b, a) == ArithI32(BinOp(k).value, a, b) <==> SwapSafe(k, a, b)
  {
    match k {
      case Slash => if a != 0 { DivSwap(a, b); }
      case Star => assert a * b == b * a;
      case _ =>
    }
  }

  /** Quotients of the two orders agree only for operands of one magnitude. */
  lemma DivSwap(a: int, b: int)
    requires a != 0 && b != 0
    ensures TruncDiv(a, b) == TruncDiv(b, a) <==> a == b || a + b == 0
  {
    var x, y := if a < 0 then -a else a, if b < 0 then -b else b;
    if x < y {
      Quotients(x, y);
    } else if y < x {
      Quotients(y, x);
    } else {
      assert x / y == 1 == y / x;
    }
  }

  lemma Quotients(x: nat, y: nat)
    requires 0 < x < y
    ensures x / y == 0 && y / x >= 1
  {
    Multiple(x / y, y);
    assert y == y / x * x + y % x;
    Multiple(y / x, x);
  }

  lemma Multiple(q: nat, y: nat)
    ensures q >= 1 ==> q * y >= y
    ensures q == 0 ==> q * y == 0
  {
    if q >= 1 {
      assert q * y == y + (q - 1) * y;
    }
  }

  /** What the operators mean. Written: left OP right, on ints as C++ has them. Compiled: right
      OP left. */
  lemma OperatorsMean(k: Kind, x: Expr, y: Expr)
    requires k in {Plus, Kind.Sub, Star, Slash} && Arithmetic(x) && Arithmetic(y)
    ensures var e := Ops([k], [x, y]);
            var op := if k == Plus then Add else if k == Kind.Sub then Arith.Sub else if k == Star then Mul else Div;
            && Arithmetic(e)
            && Means(op, RefValue(x), RefValue(y), RefValue(e))
            && Means(op, CodeValue(y), CodeValue(x), CodeValue(e))
  {
    hide ArithI32, IsResult, Defined;
    var e := Ops([k], [x, y]);
    assert !Negation(e);
    assert Arithmetic(e);
    if RefValue(x).Some? && RefValue(y).Some? {
      var a, b := RefValue(x).value, RefValue(y).value;
      ArithMeaning(BinOp(k).value, a, b);
      var r := ArithI32(BinOp(k).value, a, b);
      assert r.Some? ==> RefFold(e, 1, r.value) == r;
    }
    if CodeValue(x).Some? && CodeValue(y).Some? {
      var a, b := CodeValue(x).value, CodeValue(y).value;
      ArithMeaning(BinOp(k).value, b, a);
      var r := ArithI32(BinOp(k).value, b, a);
      assert r.Some? ==> CodeFold(e, 1, r.value) == r;
    }
  }

  /** `r` is `a OP b`, or nothing when that or an operand is undefined. */
  ghost predicate Means(op: Arith, a: Option<i32>, b: Option<i32>, r: Option<i32>) {
    if a.None? || b.None? then r == None
    else (r.Some? <==> Defined(op, a.value, b.value)) && (r.Some? ==> IsResult(op, a.value, b.value, r.value))
  }

  function Opposite(v: Option<i32>): Option<i32> {
    if v.None? || v.value == I32_MIN then None else Some(-v.value)
  }

  /** A minus before an operand changes its sign, in both readings; the least int has none. */
  lemma MinusMeans(x: Expr)
    requires Arithmetic(x)
    ensures var e := Ops([Kind.Sub], [x]);
            && Arithmetic(e)
            && RefValue(e) == Opposite(RefValue(x)) && CodeValue(e) == Opposite(CodeValue(x))
  {
  }

  /** The difference is real: `3 - 1` compiles to -2. */
  lemma DifferenceExample()
    ensures var e := Ops([Kind.Sub], [Atom(IntToken(3)), Atom(IntToken(1))]);
            Arithmetic(e) && RefValue(e) == Some(2) && CodeValue(e) == Some(-2)
  {
    var e := Ops([Kind.Sub], [Atom(IntToken(3)), Atom(IntToken(1))]);
    assert RefFold(e, 1, 2) == Some(2) && CodeFold(e, 1, -2) == Some(-2);
    assert RefFold(e, 0, 3) == Some(2) && CodeFold(e, 0, 3) == Some(-2);
  }
}
