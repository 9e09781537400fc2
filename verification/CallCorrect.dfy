/** What the code of calls, comparisons, names and float literals does. */
module CallCorrect {
  import opened Wrappers
  import opened Words
  import opened Vm
  import opened Tokens
  import opened Ast
  import opened ExprCompiler
  import opened ExprCorrect

  /** A float literal's code leaves its word at the slot, and changes nothing else. */
  lemma FloatRuns(fw: FloatWord, p: Program, s: State, digits: string, o: nat)
    requires Ready(s, o, 4) && CodeAt(p, s.pc, CompileExpr(fw, Atom(FloatToken(digits)), o))
    ensures Exec(p, s, 1).Some?
    ensures var t := Exec(p, s, 1).value;
            && t == s.(pc := s.pc + 1, stack := t.stack)
            && SameOutside(s.stack, t.stack, s.top + o, s.top + o + 4)
            && Get32(t.stack, s.top + o) == fw(digits)
  {
    hide Exec, Put32, Get32, Base;
    Set32Runs(p, s, o, fw(digits));
  }

  /** A minus before it multiplies the word by -1 as if it were an int: that is not the float's
      negative, and is undefined for the word of the least int. */
  lemma NegatedFloatRuns(fw: FloatWord, p: Program, s: State, digits: string, o: nat)
    requires Ready(s, o, 4) && CodeAt(p, s.pc, CompileExpr(fw, Ops([Kind.Sub], [Atom(FloatToken(digits))]), o))
    ensures match Exec(p, s, 2)
            case None => Signed(fw(digits)) == I32_MIN
            case Some(t) => Signed(fw(digits)) != I32_MIN && Computed(s, t, o, 4, -Signed(fw(digits)), 2)
  {
    hide Exec, Put32, Get32, Base;
    var literal := CompileExpr(fw, Atom(FloatToken(digits)), o);
    assert CodeAt(p, s.pc, literal + [NegateAt(o)]);
    CodeAtSplit(p, s.pc, literal, [NegateAt(o)]);
    FloatRuns(fw, p, s, digits, o);
    ExecAdd(p, s, 1, 1);
    NegateRuns(p, Exec(p, s, 1).value, o);
  }

  /** A name, a string or a truth value has no code: its slot keeps the bytes it had. */
  lemma NotRead(fw: FloatWord, v: Token, o: nat)
    requires v.Kind() in {Symbol, Str, True, False}
    ensures CompileExpr(fw, Atom(v), o) == []
  {
  }

  // ----- comparisons -----

  /** A comparison has no instruction of its own: it leaves its left operand's value, and is
      undefined when either operand is. */
  lemma ComparisonRuns(fw: FloatWord, p: Program, s: State, k: Kind, x: Expr, y: Expr, o: nat)
    requires k in {Less, Greater, Equal} && Arithmetic(x) && Arithmetic(y)
    requires var e := Ops([k], [x, y]); Ready(s, o, Extent(e)) && CodeAt(p, s.pc, CompileExpr(fw, e, o))
    ensures var e := Ops([k], [x, y]);
            Yields(p, s, |CompileExpr(fw, e, o)|, o, Extent(e), if CodeValue(y).None? then None else CodeValue(x))
  {
    hide Exec, Get32, Base, CodeValue, Arithmetic, Extent, CompileExpr;
    var e := Ops([k], [x, y]);
    var first, second := CompileExpr(fw, x, o), CompileExpr(fw, y, o + 4);
    ComparisonCode(fw, k, x, y, o);
    CodeAtSplit(p, s.pc, first, second);
    ExprRuns(fw, p, s, x, o);
    ExecAdd(p, s, |first|, |second|);
    if CodeValue(x).Some? {
      var t := Exec(p, s, |first|).value;
      OperandRuns(fw, p, t, y, o, Extent(e));
    }
  }

  lemma ComparisonCode(fw: FloatWord, k: Kind, x: Expr, y: Expr, o: nat)
    requires k in {Less, Greater, Equal}
    ensures var e := Ops([k], [x, y]);
            && CompileExpr(fw, e, o) == CompileExpr(fw, x, o) + CompileExpr(fw, y, o + 4)
            && Extent(e) >= Extent(x) && Extent(e) >= 4 + Extent(y)
  {
    hide Base;
    var e := Ops([k], [x, y]);
    assert CompileOps(fw, e, 1, o) == [];
    assert CompileOps(fw, e, 0, o) == CompileExpr(fw, y, o + 4) + [] + [];
    ExtentCovers(e, 1);
  }

  // ----- calls -----

  predicate ArithmeticCall(e: Expr) {
    e.Funcall? && |e.exprs| >= 2 && forall k :: 1 <= k < |e.exprs| ==> Arithmetic(e.exprs[k])
  }

  /** The last argument's value, when those from the `i`-th expression on have one. */
  function LastValue(e: Expr, i: nat): Option<i32>
    requires ArithmeticCall(e) && 1 <= i < |e.exprs|
    decreases |e.exprs| - i
  {
    var v :- CodeValue(e.exprs[i]);
    if i + 1 == |e.exprs| then Some(v) else LastValue(e, i + 1)
  }

  lemma YieldsMore(p: Program, s: State, len: nat, o: nat, m: nat, n: nat, v: Option<i32>)
    requires Ready(s, o, n) && 4 <= m <= n && Yields(p, s, len, o, m, v)
    ensures Yields(p, s, len, o, n, v)
  {
    hide Exec, Get32;
  }

  /** Arguments are computed into one slot, each over the one before. */
  lemma {:induction false} ArgsRun(fw: FloatWord, p: Program, s: State, e: Expr, i: nat, o: nat)
    requires ArithmeticCall(e) && 1 <= i < |e.exprs|
    requires Ready(s, o, MaxExtent(e, i)) && CodeAt(p, s.pc, CompileArgs(fw, e, i, o))
    ensures Yields(p, s, |CompileArgs(fw, e, i, o)|, o, MaxExtent(e, i), LastValue(e, i))
    decreases |e.exprs| - i
  {
    hide Exec, Get32, Base, CodeValue, Arithmetic, Extent, CompileExpr, CompileArgs, MaxExtent;
    var x, n := e.exprs[i], MaxExtent(e, i);
    ArgsStep(fw, e, i, o);
    var first, rest := CompileExpr(fw, x, o), CompileArgs(fw, e, i + 1, o);
    CodeAtSplit(p, s.pc, first, rest);
    ExprRuns(fw, p, s, x, o);
    YieldsMore(p, s, |first|, o, Extent(x), n, CodeValue(x));
    if CodeValue(x).None? {
      ThenNothing(p, s, |first|, |rest|);
    } else if i + 1 < |e.exprs| {
      var t := Exec(p, s, |first|).value;
      ArgsRun(fw, p, t, e, i + 1, o);
      YieldsMore(p, t, |rest|, o, MaxExtent(e, i + 1), n, LastValue(e, i + 1));
      Then(p, s, |first|, t, |rest|, o, n, LastValue(e, i + 1));
    }
  }

  lemma ArgsStep(fw: FloatWord, e: Expr, i: nat, o: nat)
    requires e.Funcall? && 1 <= i < |e.exprs|
    ensures CompileArgs(fw, e, i, o) == CompileExpr(fw, e.exprs[i], o) + CompileArgs(fw, e, i + 1, o)
    ensures i + 1 == |e.exprs| ==> CompileArgs(fw, e, i + 1, o) == []
    ensures MaxExtent(e, i) >= Extent(e.exprs[i]) && MaxExtent(e, i) >= MaxExtent(e, i + 1)
  {
    hide CompileExpr;
  }

  /** A call of `print` shows the value of its last argument and no other; a call of anything
      else only computes its arguments. Either is undefined when one of them is. */
  lemma CallRuns(fw: FloatWord, p: Program, s: State, e: Expr, o: nat)
    requires ArithmeticCall(e) && Ready(s, o, Extent(e)) && CodeAt(p, s.pc, CompileExpr(fw, e, o))
    ensures var len := |CompileExpr(fw, e, o)|;
            match LastValue(e, 1)
            case None => Exec(p, s, len) == None
            case Some(v) =>
              && Exec(p, s, len).Some? && s.pc + len < TWO_64
              && var t := Exec(p, s, len).value;
                 && t == s.(pc := s.pc + len, stack := t.stack, console := t.console)
                 && SameOutside(s.stack, t.stack, s.top + o, s.top + o + Extent(e))
                 && Signed(Get32(t.stack, s.top + o)) == v
                 && t.console == s.console + (if CalleeName(e) == "print" then [LineI32(v)] else [])
  {
    hide Exec, Get32, Base, CodeValue, Arithmetic, CompileArgs, CompileExpr, LastValue, CalleeName;
    CallCode(fw, e, o);
    var args, call := CompileArgs(fw, e, 1, o), CompileCall(CalleeName(e), o);
    CodeAtSplit(p, s.pc, args, call);
    ArgsRun(fw, p, s, e, 1, o);
    ExecAdd(p, s, |args|, |call|);
    if LastValue(e, 1).Some? {
      var t := Exec(p, s, |args|).value;
      if CalleeName(e) == "print" {
        PrintRuns(p, t, o);
      } else {
        NoTicks(p, t);
      }
    }
  }
}
