/** How far above its slot the code of an expression writes. */
module Scratch {
  import opened Words
  import opened Vm
  import opened Ast
  import opened ExprCompiler
  import opened Grammar

  /** The instruction writes four bytes among those at STACK_TOP + `lo` .. STACK_TOP + `hi`,
      or prints and writes none. */
  predicate WritesIn(ins: Instruction, lo: nat, hi: nat) {
    || (ins.op == Call && ins.arg0 == SC_PRINT_I32)
    || ((ins.op == Set32 || ins.op.Bin? || ins.op.BinD?)
        && Base(STACK_TOP, 0) + lo <= ins.arg0 && ins.arg0 + 4 <= Base(STACK_TOP, 0) + hi)
  }

  ghost predicate AllWriteIn(code: seq<Instruction>, lo: nat, hi: nat) {
    forall i :: 0 <= i < |code| ==> WritesIn(code[i], lo, hi)
  }

  lemma Wider(code: seq<Instruction>, lo: nat, hi: nat, lo': nat, hi': nat)
    requires AllWriteIn(code, lo, hi) && lo' <= lo && hi <= hi'
    ensures AllWriteIn(code, lo', hi')
  {
  }

  /** For any expression, its code writes only the bytes of its extent. */
  lemma {:induction false} CodeWrites(fw: FloatWord, e: Expr, o: nat)
    requires o + Extent(e) <= TWO_56
    ensures AllWriteIn(CompileExpr(fw, e, o), o, o + Extent(e))
    decreases e, 1
  {
    match e {
      case Atom(_) =>
      case Ops(ops, exprs) =>
        if exprs != [] {
          CodeWrites(fw, exprs[0], o);
          Wider(CompileExpr(fw, exprs[0], o), o, o + Extent(exprs[0]), o, o + Extent(e));
          if !Negation(e) {
            OpsWrite(fw, e, 0, o);
          }
        }
      case Funcall(exprs) =>
        if exprs != [] {
          ArgsWrite(fw, e, 1, o);
        }
    }
  }

  lemma {:induction false} OpsWrite(fw: FloatWord, e: Expr, i: nat, o: nat)
    requires e.Ops? && o + Extent(e) <= TWO_56
    ensures AllWriteIn(CompileOps(fw, e, i, o), o, o + Extent(e))
    decreases e, 0, |e.ops| - i
  {
    hide CompileExpr;
    if i < |e.ops| && i + 1 < |e.exprs| {
      var x := e.exprs[i + 1];
      CodeWrites(fw, x, o + 4);
      Wider(CompileExpr(fw, x, o + 4), o + 4, o + 4 + Extent(x), o, o + Extent(e));
      OpsWrite(fw, e, i + 1, o);
    }
  }

  lemma {:induction false} ArgsWrite(fw: FloatWord, e: Expr, i: nat, o: nat)
    requires e.Funcall? && 1 <= i && o + Extent(e) <= TWO_56
    ensures AllWriteIn(CompileArgs(fw, e, i, o), o, o + Extent(e))
    decreases e, 0, |e.exprs| - i
  {
    hide CompileExpr;
    if i < |e.exprs| {
      CodeWrites(fw, e.exprs[i], o);
      Wider(CompileExpr(fw, e.exprs[i], o), o, o + Extent(e.exprs[i]), o, o + Extent(e));
      ArgsWrite(fw, e, i + 1, o);
    }
  }

  /** A tree of the parser needs four bytes per precedence level, and twelve more for each
      level of call nesting: at most 16 + 12 * d in all. */
  lemma {:induction false} ExtentBound(e: Expr, level: nat)
    requires level <= 3 && Shaped(e, level)
    ensures Extent(e) <= 4 + 4 * level + 12 * CallDepth(e)
    decreases e, level
  {
    if level > 0 && Shaped(e, level - 1) {
      ExtentBound(e, level - 1);
    } else if level > 0 {
      forall k | 0 <= k < |e.exprs| ensures Extent(e.exprs[k]) <= 4 * level + 12 * CallDepth(e) {
        ExtentBound(e.exprs[k], level - 1);
      }
      MaxExtentBound(e, 1, 4 * level + 12 * CallDepth(e));
    } else if e.Funcall? {
      forall k | 1 <= k < |e.exprs| ensures Extent(e.exprs[k]) <= 4 + 12 * CallDepth(e) {
        ExtentBound(e.exprs[k], 3);
      }
      MaxExtentBound(e, 1, 4 + 12 * CallDepth(e));
    }
  }

  lemma {:induction false} MaxExtentBound(e: Expr, i: nat, n: nat)
    requires !e.Atom? && n >= 4 && forall k :: i <= k < |e.exprs| ==> Extent(e.exprs[k]) <= n
    ensures MaxExtent(e, i) <= n
    decreases |e.exprs| - i
  {
    if i < |e.exprs| {
      MaxExtentBound(e, i + 1, n);
    }
  }

  /** Both together: a parsed expression's code stays within 16 + 12 * d bytes of its slot. */
  lemma ScratchBound(fw: FloatWord, e: Expr, o: nat)
    requires Shaped(e, 3) && o + 16 + 12 * CallDepth(e) <= TWO_56
    ensures AllWriteIn(CompileExpr(fw, e, o), o, o + 16 + 12 * CallDepth(e))
  {
    hide CompileExpr, Shaped, Extent, CallDepth;
    ExtentBound(e, 3);
    CodeWrites(fw, e, o);
    Wider(CompileExpr(fw, e, o), o, o + Extent(e), o, o + 16 + 12 * CallDepth(e));
  }
}
