/** What the compiler emits for an expression, and what that code computes.

    `CompileExpr` is the instruction sequence for an expression whose result goes to
    STACK_TOP + `o`; scratch space starts right above. `CodeValue` is the value the code
    leaves there; `RefValue` is the value the operators mean, read left to right. */
module ExprCompiler {
  import opened Wrappers
  import opened Words
  import opened Vm
  import opened Tokens
  import opened Ast

  /** The bit pattern of a float literal: a parameter, since rounding is not modelled. */
  type FloatWord = string -> u32

  function BinOp(k: Kind): Option<Arith> {
    match k
    case Plus => Some(Arith.Add)
    case Sub => Some(Arith.Sub)
    case Star => Some(Arith.Mul)
    case Slash => Some(Arith.Div)
    case _ => None
  }

  predicate Negation(e: Expr) {
    e.Ops? && |e.ops| == 1 && |e.exprs| == 1 && e.ops[0] == Kind.Sub
  }

  function CompileExpr(fw: FloatWord, e: Expr, o: nat): seq<Instruction>
    decreases e, 1
  {
    match e
    case Atom(v) =>
      if v.IntToken? then [Instruction(Set32, Base(STACK_TOP, o), Unsigned(v.i), 0)]
      else if v.FloatToken? then [Instruction(Set32, Base(STACK_TOP, o), fw(v.digits), 0)]
      else []
    case Ops(ops, exprs) =>
      if exprs == [] then []
      else if Negation(e) then CompileExpr(fw, exprs[0], o) + [NegateAt(o)]
      else CompileExpr(fw, exprs[0], o) + CompileOps(fw, e, 0, o)
    case Funcall(exprs) =>
      if exprs == [] then [] else CompileArgs(fw, e, 1, o) + CompileCall(CalleeName(e), o)
  }

  /** The loop over the operators of `e`, from the `i`-th on. */
  function CompileOps(fw: FloatWord, e: Expr, i: nat, o: nat): seq<Instruction>
    requires e.Ops?
    decreases e, 0, |e.ops| - i
  {
    if i >= |e.ops| || i + 1 >= |e.exprs| then [] else
      CompileExpr(fw, e.exprs[i + 1], o + 4) + OpAt(e.ops[i], o) + CompileOps(fw, e, i + 1, o)
  }

  function NegateAt(o: nat): Instruction {
    Instruction(BinD(Arith.Mul, I32), Base(STACK_TOP, o), Unsigned(-1), Base(STACK_TOP, o))
  }

  function OpAt(k: Kind, o: nat): seq<Instruction> {
    match BinOp(k)
    case Some(op) => [Instruction(Bin(op, I32), Base(STACK_TOP, o), Base(STACK_TOP, o + 4), Base(STACK_TOP, o))]
    case None => []
  }

  function CompileArgs(fw: FloatWord, e: Expr, i: nat, o: nat): seq<Instruction>
    requires e.Funcall?
    decreases e, 0, |e.exprs| - i
  {
    if i >= |e.exprs| then [] else CompileExpr(fw, e.exprs[i], o) + CompileArgs(fw, e, i + 1, o)
  }

  function CalleeName(e: Expr): string
    requires e.Funcall? && e.exprs != []
  {
    if e.exprs[0].Atom? then e.exprs[0].v.Text() else ""
  }

  function CompileCall(name: string, o: nat): seq<Instruction> {
    if name == "print" then [Instruction(Call, SC_PRINT_I32, Base(STACK_TOP, o), 0)] else []
  }

  lemma CallCode(fw: FloatWord, e: Expr, o: nat)
    requires e.Funcall? && e.exprs != []
    ensures CompileExpr(fw, e, o) == CompileArgs(fw, e, 1, o) + CompileCall(CalleeName(e), o)
  {
  }

  // ----- what the code computes -----

  /** Integer literals, unary minus, and n-ary nodes over + - * /. */
  predicate Arithmetic(e: Expr) {
    match e
    case Atom(v) => v.IntToken?
    case Ops(ops, exprs) =>
      && (Negation(e) || (|exprs| == |ops| + 1 && (forall i :: 0 <= i < |ops| ==> BinOp(ops[i]).Some?)))
      && (forall i :: 0 <= i < |exprs| ==> Arithmetic(exprs[i]))
    case Funcall(_) => false
  }

  /** The value the emitted code leaves: at each operator, the new operand OP what is
      accumulated so far. Nothing when an instruction on the way has no defined result. */
  function CodeValue(e: Expr): Option<i32>
    requires Arithmetic(e)
    decreases e, 1
  {
    if e.Atom? then Some(e.v.i) else
      var v :- CodeValue(e.exprs[0]);
      if Negation(e) then ArithI32(Arith.Mul, v, -1) else CodeFold(e, 0, v)
  }

  function CodeFold(e: Expr, i: nat, acc: i32): Option<i32>
    requires e.Ops? && Arithmetic(e) && !Negation(e) && i <= |e.ops|
    decreases e, 0, |e.ops| - i
  {
    if i == |e.ops| then Some(acc) else
      var v :- CodeValue(e.exprs[i + 1]);
      var r :- ArithI32(BinOp(e.ops[i]).value, v, acc);
      CodeFold(e, i + 1, r)
  }

  /** The value of the expression read as it is written: what is accumulated so far OP
      the new operand. */
  function RefValue(e: Expr): Option<i32>
    requires Arithmetic(e)
    decreases e, 1
  {
    if e.Atom? then Some(e.v.i) else
      var v :- RefValue(e.exprs[0]);
      if Negation(e) then ArithI32(Arith.Sub, 0, v) else RefFold(e, 0, v)
  }

  function RefFold(e: Expr, i: nat, acc: i32): Option<i32>
    requires e.Ops? && Arithmetic(e) && !Negation(e) && i <= |e.ops|
    decreases e, 0, |e.ops| - i
  {
    if i == |e.ops| then Some(acc) else
      var v :- RefValue(e.exprs[i + 1]);
      var r :- ArithI32(BinOp(e.ops[i]).value, acc, v);
      RefFold(e, i + 1, r)
  }

  /** The bytes above its slot that the code of an expression uses. */
  function Extent(e: Expr): (n: nat)
    ensures n >= 4
    decreases e, 1
  {
    match e
    case Atom(_) => 4
    case Ops(_, exprs) =>
      if exprs == [] then 4 else if |exprs| == 1 then Extent(exprs[0])
      else Max(Extent(exprs[0]), 4 + MaxExtent(e, 1))
    case Funcall(exprs) => MaxExtent(e, 1)
  }

  function MaxExtent(e: Expr, i: nat): (n: nat)
    requires !e.Atom?
    ensures n >= 4
    ensures forall k :: i <= k < |e.exprs| ==> n >= Extent(e.exprs[k])
    decreases e, 0, |e.exprs| - i
  {
    if i >= |e.exprs| then 4 else Max(Extent(e.exprs[i]), MaxExtent(e, i + 1))
  }

  function Max(a: nat, b: nat): nat {
    if a > b then a else b
  }

  // ----- running it -----

  /** `code` is in the program at `pc`. */
  ghost predicate CodeAt(p: Program, pc: nat, code: seq<Instruction>) {
    pc + |code| <= |p.code| && p.code[pc..pc + |code|] == code
  }

  lemma CodeAtSplit(p: Program, pc: nat, a: seq<Instruction>, b: seq<Instruction>)
    requires CodeAt(p, pc, a + b)
    ensures CodeAt(p, pc, a) && CodeAt(p, pc + |a|, b)
  {
    assert p.code[pc..pc + |a|] == p.code[pc..pc + |a + b|][..|a|];
    assert p.code[pc + |a|..pc + |a| + |b|] == p.code[pc..pc + |a + b|][|a|..];
  }

  /** The machine is running and the `n` bytes at STACK_TOP + `o` are in its stack. */
  predicate Ready(s: State, o: nat, n: nat) {
    !s.finished && |s.stack| <= MAX_STACK && s.top + o + n <= |s.stack|
  }

  /** `t` is `s` after `len` instructions that put `v` at STACK_TOP + `o` and changed
      no byte outside the `n` bytes there. */
  ghost predicate Computed(s: State, t: State, o: nat, n: nat, v: i32, len: nat)
    requires Ready(s, o, n) && n >= 4
  {
    && s.pc + len < TWO_64
    && t == s.(pc := s.pc + len, stack := t.stack)
    && SameOutside(s.stack, t.stack, s.top + o, s.top + o + n)
    && Signed(Get32(t.stack, s.top + o)) == v
  }

  lemma TopSlot(s: State, o: nat, width: nat)
    requires Ready(s, o, width)
    ensures Slot(s, Base(STACK_TOP, o), width) == Some(s.top + o)
  {
  }

  lemma Set32Runs(p: Program, s: State, o: nat, u: u32)
    requires Ready(s, o, 4) && CodeAt(p, s.pc, [Instruction(Set32, Base(STACK_TOP, o), u, 0)])
    ensures Exec(p, s, 1) == Some(s.(pc := s.pc + 1, stack := Put32(s.stack, s.top + o, u)))
  {
    hide Slot, Put32, Base;
    TopSlot(s, o, 4);
    assert p.code[s.pc] == p.code[s.pc..s.pc + 1][0];
    assert Exec(p, Step(p, s).value, 0) == Step(p, s);
  }

  lemma NegateRuns(p: Program, s: State, o: nat)
    requires Ready(s, o, 4) && CodeAt(p, s.pc, [NegateAt(o)])
    ensures Exec(p, s, 1) ==
      match ArithI32(Arith.Mul, Signed(Get32(s.stack, s.top + o)), -1)
      case None => None
      case Some(r) => Some(s.(pc := s.pc + 1, stack := Put32(s.stack, s.top + o, Unsigned(r))))
  {
    hide Slot, Put32, Get32, Base, ArithI32;
    TopSlot(s, o, 4);
    assert p.code[s.pc] == p.code[s.pc..s.pc + 1][0];
    assert Step(p, s).Some? ==> Exec(p, Step(p, s).value, 0) == Step(p, s);
  }

  lemma OpRuns(p: Program, s: State, op: Arith, o: nat)
    requires Ready(s, o, 8)
    requires CodeAt(p, s.pc,
                    [Instruction(Bin(op, I32), Base(STACK_TOP, o), Base(STACK_TOP, o + 4), Base(STACK_TOP, o))])
    ensures Exec(p, s, 1) ==
      match ArithI32(op, Signed(Get32(s.stack, s.top + o + 4)), Signed(Get32(s.stack, s.top + o)))
      case None => None
      case Some(r) => Some(s.(pc := s.pc + 1, stack := Put32(s.stack, s.top + o, Unsigned(r))))
  {
    hide Slot, Put32, Get32, Base, ArithI32;
    TopSlot(s, o, 4);
    TopSlot(s, o + 4, 4);
    assert p.code[s.pc] == p.code[s.pc..s.pc + 1][0];
    assert Step(p, s).Some? ==> Exec(p, Step(p, s).value, 0) == Step(p, s);
  }
}
