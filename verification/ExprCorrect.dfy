/** Compiler correctness for arithmetic expressions, over bytes, and when the
    compiled value is the one the expression means. */
module ExprCorrect {
  import opened Wrappers
  import opened Words
  import opened Vm
  import opened Tokens
  import opened Ast
  import opened ExprCompiler

  /** After `len` instructions from `s`: the value `v` at STACK_TOP + `o` with no byte
      changed outside the `n` bytes there; or no defined result, when `v` is none. */
  ghost predicate Yields(p: Program, s: State, len: nat, o: nat, n: nat, v: Option<i32>)
    requires Ready(s, o, n) && n >= 4
  {
    match v
    case None => Exec(p, s, len) == None
    case Some(x) => Exec(p, s, len).Some? && Computed(s, Exec(p, s, len).value, o, n, x, len)
  }

  /** `t` is `s` some instructions later, with no byte changed outside the `n` at `o`. */
  ghost predicate Reaches(p: Program, s: State, a: nat, t: State, o: nat, n: nat)
  {
    && Exec(p, s, a) == Some(t)
    && s.pc + a < TWO_64
    && t == s.(pc := s.pc + a, stack := t.stack)
    && SameOutside(s.stack, t.stack, s.top + o, s.top + o + n)
  }

  lemma Then(p: Program, s: State, a: nat, t: State, b: nat, o: nat, n: nat, v: Option<i32>)
    requires Ready(s, o, n) && n >= 4 && Reaches(p, s, a, t, o, n) && Yields(p, t, b, o, n, v)
    ensures Yields(p, s, a + b, o, n, v)
  {
    hide Exec, Get32;
    ExecAdd(p, s, a, b);
  }

  lemma ThenNothing(p: Program, s: State, a: nat, b: nat)
    requires Exec(p, s, a) == None
    ensures Exec(p, s, a + b) == None
  {
    ExecAdd(p, s, a, b);
  }

  /** Running the code of an arithmetic expression for exactly its length puts its code
      value at the slot, advances the program counter by that length and changes nothing
      but the expression's own bytes; it has no defined result exactly when the code
      value has none. */
  lemma {:induction false} ExprRuns(fw: FloatWord, p: Program, s: State, e: Expr, o: nat)
    requires Arithmetic(e) && Ready(s, o, Extent(e))
    requires CodeAt(p, s.pc, CompileExpr(fw, e, o))
    ensures Yields(p, s, |CompileExpr(fw, e, o)|, o, Extent(e), CodeValue(e))
    decreases e, 2
  {
    hide Exec, Put32, Get32, Base, ArithI32, Arithmetic;
    if e.Atom? {
      ArithmeticAtom(e);
      Set32Runs(p, s, o, Unsigned(e.v.i));
    } else {
      ArithmeticOps(e);
      var first := CompileExpr(fw, e.exprs[0], o);
      var rest := if Negation(e) then [NegateAt(o)] else CompileOps(fw, e, 0, o);
      assert CompileExpr(fw, e, o) == first + rest;
      CodeAtSplit(p, s.pc, first, rest);
      ExprRuns(fw, p, s, e.exprs[0], o);
      if CodeValue(e.exprs[0]).None? {
        ThenNothing(p, s, |first|, |rest|);
      } else {
        var t := Exec(p, s, |first|).value;
        if Negation(e) {
          NegateYields(p, t, o, Extent(e));
        } else {
          OpsRun(fw, p, t, e, 0, o);
        }
        Then(p, s, |first|, t, |rest|, o, Extent(e), CodeValue(e));
      }
    }
  }

  lemma NegateYields(p: Program, s: State, o: nat, n: nat)
    requires n >= 4 && Ready(s, o, n) && CodeAt(p, s.pc, [NegateAt(o)])
    ensures Yields(p, s, 1, o, n, ArithI32(Arith.Mul, Signed(Get32(s.stack, s.top + o)), -1))
  {
    hide Exec, Put32, Get32, Base, ArithI32;
    NegateRuns(p, s, o);
  }

  lemma ArithmeticAtom(e: Expr)
    requires Arithmetic(e) && e.Atom?
    ensures e.v.IntToken?
  {
  }

  lemma ArithmeticOps(e: Expr)
    requires Arithmetic(e) && !e.Atom?
    ensures e.Ops? && e.exprs != [] && (forall i :: 0 <= i < |e.exprs| ==> Arithmetic(e.exprs[i]))
    ensures !Negation(e) ==> |e.exprs| == |e.ops| + 1 && (forall i :: 0 <= i < |e.ops| ==> BinOp(e.ops[i]).Some?)
  {
  }

  /** The code of the operator loop from operator `i` on, started with the accumulated
      value in its slot. */
  lemma {:induction false} OpsRun(fw: FloatWord, p: Program, s: State, e: Expr, i: nat, o: nat)
    requires Arithmetic(e) && e.Ops? && !Negation(e) && i <= |e.ops|
    requires Ready(s, o, Extent(e)) && CodeAt(p, s.pc, CompileOps(fw, e, i, o))
    ensures Yields(p, s, |CompileOps(fw, e, i, o)|, o, Extent(e), CodeFold(e, i, Signed(Get32(s.stack, s.top + o))))
    decreases e, 1, |e.ops| - i
  {
    hide Exec, Get32, Base, ArithI32, Arithmetic, CompileExpr, CompileOps, CodeValue, CodeFold, Extent;
    ArithmeticOps(e);
    FoldStep(e, i, Signed(Get32(s.stack, s.top + o)));
    if i == |e.ops| {
      NoOps(fw, e, o);
      assert Exec(p, s, 0) == Some(s) by { NoTicks(p, s); }
    } else {
      var x, op := e.exprs[i + 1], BinOp(e.ops[i]).value;
      var operand, apply, rest := CompileExpr(fw, x, o + 4), OpAt(e.ops[i], o), CompileOps(fw, e, i + 1, o);
      OpsCode(fw, e, i, o);
      CodeAtSplit(p, s.pc, operand, apply + rest);
      CodeAtSplit(p, s.pc + |operand|, apply, rest);
      ExtentCovers(e, i + 1);
      OperandRuns(fw, p, s, x, o, Extent(e));
      var acc := Signed(Get32(s.stack, s.top + o));
      if CodeValue(x).None? {
        ThenNothing(p, s, |operand|, 1 + |rest|);
      } else {
        var t := Exec(p, s, |operand|).value;
        OpReaches(p, t, op, o, Extent(e), CodeValue(x).value, acc);
        if ArithI32(op, CodeValue(x).value, acc).None? {
          ThenNothing(p, t, 1, |rest|);
        } else {
          var u := Exec(p, t, 1).value;
          OpsRun(fw, p, u, e, i + 1, o);
          Then(p, t, 1, u, |rest|, o, Extent(e), CodeFold(e, i, acc));
        }
        Then(p, s, |operand|, t, 1 + |rest|, o, Extent(e), CodeFold(e, i, acc));
      }
    }
  }

  /** An operand's code, above the accumulator, which it leaves alone. */
  lemma {:induction false} OperandRuns(fw: FloatWord, p: Program, s: State, x: Expr, o: nat, n: nat)
    requires Arithmetic(x) && n >= 4 + Extent(x) && Ready(s, o, n) && CodeAt(p, s.pc, CompileExpr(fw, x, o + 4))
    ensures var r := Exec(p, s, |CompileExpr(fw, x, o + 4)|);
            match CodeValue(x)
            case None => r == None
            case Some(v) =>
              && r.Some? && Reaches(p, s, |CompileExpr(fw, x, o + 4)|, r.value, o, n)
              && Signed(Get32(r.value.stack, s.top + o + 4)) == v
              && Get32(r.value.stack, s.top + o) == Get32(s.stack, s.top + o)
    decreases x, 3
  {
    hide Exec, Get32, Base, Arithmetic, CompileExpr, CodeValue, Extent;
    ExprRuns(fw, p, s, x, o + 4);
    if CodeValue(x).Some? {
      Get32Same(s.stack, Exec(p, s, |CompileExpr(fw, x, o + 4)|).value.stack, s.top + o);
    }
  }

  lemma NoOps(fw: FloatWord, e: Expr, o: nat)
    requires e.Ops?
    ensures CompileOps(fw, e, |e.ops|, o) == []
  {
  }

  lemma OpsCode(fw: FloatWord, e: Expr, i: nat, o: nat)
    requires e.Ops? && i < |e.ops| && i + 1 < |e.exprs|
    ensures CompileOps(fw, e, i, o) ==
            CompileExpr(fw, e.exprs[i + 1], o + 4) + (OpAt(e.ops[i], o) + CompileOps(fw, e, i + 1, o))
  {
    hide CompileExpr, OpAt;
  }

  lemma FoldStep(e: Expr, i: nat, acc: i32)
    requires e.Ops? && Arithmetic(e) && !Negation(e) && i <= |e.ops|
    ensures i == |e.ops| ==> CodeFold(e, i, acc) == Some(acc)
    ensures i < |e.ops| ==>
              && Arithmetic(e.exprs[i + 1]) && BinOp(e.ops[i]).Some?
              && CodeFold(e, i, acc) ==
                 if CodeValue(e.exprs[i + 1]).None? then None else
                   var r := ArithI32(BinOp(e.ops[i]).value, CodeValue(e.exprs[i + 1]).value, acc);
                   if r.None? then None else CodeFold(e, i + 1, r.value)
  {
    hide CodeValue, ArithI32;
  }

  lemma ExtentCovers(e: Expr, k: nat)
    requires e.Ops? && 0 < k < |e.exprs|
    ensures Extent(e) >= 4 + Extent(e.exprs[k])
  {
  }

  lemma OpReaches(p: Program, s: State, op: Arith, o: nat, n: nat, x: i32, acc: i32)
    requires n >= 8 && Ready(s, o, n)
    requires Signed(Get32(s.stack, s.top + o + 4)) == x && Signed(Get32(s.stack, s.top + o)) == acc
    requires CodeAt(p, s.pc,
                    [Instruction(Bin(op, I32), Base(STACK_TOP, o), Base(STACK_TOP, o + 4), Base(STACK_TOP, o))])
    ensures match ArithI32(op, x, acc)
            case None => Exec(p, s, 1) == None
            case Some(r) =>
              && Exec(p, s, 1).Some?
              && Reaches(p, s, 1, Exec(p, s, 1).value, o, n)
              && Signed(Get32(Exec(p, s, 1).value.stack, s.top + o)) == r
  {
    hide Exec, Put32, Get32, Base, ArithI32;
    OpRuns(p, s, op, o);
  }

  lemma NoTicks(p: Program, s: State)
    ensures Exec(p, s, 0) == Some(s)
  {
  }

  lemma Get32Same(m: Memory, n: Memory, a: nat)
    requires a + 4 <= |m| == |n| && forall k :: a <= k < a + 4 ==> m[k] == n[k]
    ensures Get32(m, a) == Get32(n, a)
  {
  }

  lemma PrintRuns(p: Program, s: State, o: nat)
    requires Ready(s, o, 4) && CodeAt(p, s.pc, [Instruction(Call, SC_PRINT_I32, Base(STACK_TOP, o), 0)])
    ensures Exec(p, s, 1) ==
            Some(s.(pc := s.pc + 1, console := s.console + [LineI32(Signed(Get32(s.stack, s.top + o)))]))
  {
    hide Slot, Base, Get32;
    TopSlot(s, o, 4);
    assert p.code[s.pc] == p.code[s.pc..s.pc + 1][0];
    assert Exec(p, Step(p, s).value, 0) == Step(p, s);
  }
}
