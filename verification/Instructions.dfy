/** What single instructions do, in terms of bytes, integers and the next program counter. */
module Instructions {
  import opened Wrappers
  import opened Words
  import opened Vm

  /** From `s` to `t`: on to the next instruction, with no change but in the `n` bytes at `d`. */
  ghost predicate Wrote(s: State, t: State, d: nat, n: nat) {
    s.pc + 1 < TWO_64 && t == s.(pc := s.pc + 1, stack := t.stack) && SameOutside(s.stack, t.stack, d, d + n)
  }

  /** Addresses of the two kinds are offsets from the two bases; there are no others. */
  lemma Addresses(s: State, kind: nat, o: nat, width: nat)
    requires kind < 0x100 && o < TWO_56 && |s.stack| + TWO_56 <= TWO_64
    ensures kind == 3 && s.top + TWO_56 <= TWO_64 ==>
              (Slot(s, Base(kind, o), width).Some? <==> s.top + o + width <= |s.stack|)
              && (s.top + o + width <= |s.stack| ==> Slot(s, Base(kind, o), width).value == s.top + o)
    ensures kind == 4 && s.bottom + TWO_56 <= TWO_64 ==>
              (Slot(s, Base(kind, o), width).Some? <==> s.bottom + o + width <= |s.stack|)
              && (s.bottom + o + width <= |s.stack| ==> Slot(s, Base(kind, o), width).value == s.bottom + o)
    ensures kind !in {3, 4} ==> Slot(s, Base(kind, o), width) == None
  {
  }

  /** The three-address operations: the word at the second address OP the word at the third
      goes to the first, on ints as C++ defines it or else undefined, on floats by the unit. */
  lemma BinStep(p: Program, s: State, d: nat, x: nat, y: nat)
    requires Runnable(p, s) && p.code[s.pc].op.Bin?
    requires var ins := p.code[s.pc];
             Slot(s, ins.arg0, 4) == Some(d) && Slot(s, ins.arg1, 4) == Some(x) && Slot(s, ins.arg2, 4) == Some(y)
    ensures var op, num, r := p.code[s.pc].op.op, p.code[s.pc].op.num, Step(p, s);
            var a, b := Get32(s.stack, x), Get32(s.stack, y);
            && (r.Some? <==> (num == I32 ==> Defined(op, Signed(a), Signed(b))))
            && (r.Some? ==> Wrote(s, r.value, d, 4))
            && (r.Some? && num == I32 ==> IsResult(op, Signed(a), Signed(b), Signed(Get32(r.value.stack, d))))
            && (r.Some? && num == F32 ==> Get32(r.value.stack, d) == p.fpu(op, a, b))
  {
    hide Slot, Put32, Get32, ArithI32, IsResult, Defined;
    ArithMeaning(p.code[s.pc].op.op, Signed(Get32(s.stack, x)), Signed(Get32(s.stack, y)));
  }

  /** The ones with an immediate: the word at the first address OP the immediate, back there. */
  lemma BinDStep(p: Program, s: State, d: nat)
    requires Runnable(p, s) && p.code[s.pc].op.BinD? && Slot(s, p.code[s.pc].arg0, 4) == Some(d)
    ensures var op, num, r := p.code[s.pc].op.op, p.code[s.pc].op.num, Step(p, s);
            var a, b: u32 := Get32(s.stack, d), p.code[s.pc].arg1 % TWO_32;
            && (r.Some? <==> (num == I32 ==> Defined(op, Signed(a), Signed(b))))
            && (r.Some? ==> Wrote(s, r.value, d, 4))
            && (r.Some? && num == I32 ==> IsResult(op, Signed(a), Signed(b), Signed(Get32(r.value.stack, d))))
            && (r.Some? && num == F32 ==> Get32(r.value.stack, d) == p.fpu(op, a, b))
  {
    hide Slot, Put32, Get32, ArithI32, IsResult, Defined;
    ArithMeaning(p.code[s.pc].op.op, Signed(Get32(s.stack, d)), Signed(p.code[s.pc].arg1 % TWO_32));
  }

  /** Arithmetic on an address that is not in memory is undefined. */
  lemma NoOperand(p: Program, s: State)
    requires Runnable(p, s) && (p.code[s.pc].op.Bin? || p.code[s.pc].op.BinD?)
    requires var ins := p.code[s.pc];
             Slot(s, ins.arg0, 4) == None
             || (ins.op.Bin? && (Slot(s, ins.arg1, 4) == None || Slot(s, ins.arg2, 4) == None))
    ensures Step(p, s) == None
  {
    hide Slot, Put32, Get32, Alu;
  }

  /** The jumps compare the words at the first two addresses, and go where the eight bytes at
      the third say. */
  lemma JumpStep(p: Program, s: State, x: nat, y: nat)
    requires Runnable(p, s) && (p.code[s.pc].op in {JumpGtI32, JumpEqI32, JumpGtEqI32})
    requires Slot(s, p.code[s.pc].arg0, 4) == Some(x) && Slot(s, p.code[s.pc].arg1, 4) == Some(y)
    ensures var op, a, b := p.code[s.pc].op, Signed(Get32(s.stack, x)), Signed(Get32(s.stack, y));
            && (a > b && op != JumpEqI32 ==> Jumped(s, p.code[s.pc].arg2, Step(p, s)))
            && (a == b && op != JumpGtI32 ==> Jumped(s, p.code[s.pc].arg2, Step(p, s)))
            && (a > b && op == JumpEqI32 ==> Step(p, s) == Some(s.(pc := s.pc + 1)))
            && (a == b && op == JumpGtI32 ==> Step(p, s) == Some(s.(pc := s.pc + 1)))
            && (a < b ==> Step(p, s) == Some(s.(pc := s.pc + 1)))
  {
    hide Slot, Get32, Get64;
  }

  ghost predicate Jumped(s: State, target: u64, r: Option<State>) {
    match Slot(s, target, 8)
    case None => r == None
    case Some(t) => r == Some(s.(pc := Get64(s.stack, t)))
  }

  /** The stores: a byte from memory, the low byte or word of the argument, all of it, or the
      address of the next instruction. */
  lemma StoreStep(p: Program, s: State, d: nat)
    requires Runnable(p, s) && Stores(p.code[s.pc].op)
    requires var ins := p.code[s.pc];
             Slot(s, ins.arg0, if ins.op in {Move, Set8} then 1 else if ins.op == Set32 then 4 else 8) == Some(d)
    ensures var ins, r := p.code[s.pc], Step(p, s);
            && (ins.op == Move ==>
                  match Slot(s, ins.arg1, 1)
                  case None => r == None
                  case Some(f) => r.Some? && Wrote(s, r.value, d, 1) && r.value.stack[d] == s.stack[f])
            && (ins.op == Set8 ==> r.Some? && Wrote(s, r.value, d, 1) && r.value.stack[d] == ins.arg1 % 0x100)
            && (ins.op == Set32 ==> r.Some? && Wrote(s, r.value, d, 4) && Get32(r.value.stack, d) == ins.arg1 % TWO_32)
            && (ins.op == Set64 ==> r.Some? && Wrote(s, r.value, d, 8) && Get64(r.value.stack, d) == ins.arg1)
            && (ins.op == SavePC ==> r.Some? && Wrote(s, r.value, d, 8) && Get64(r.value.stack, d) == s.pc + 1)
  {
    hide Slot, Put32, Put64, Get32, Get64;
  }

  /** SetStackBottom gives the frame its size; a sum past 64 bits loses its carry. */
  lemma FrameStep(p: Program, s: State)
    requires Runnable(p, s) && p.code[s.pc].op == SetStackBottom
    ensures Step(p, s).Some?
    ensures var t, n := Step(p, s).value, p.code[s.pc].arg0;
            && t == s.(pc := s.pc + 1, bottom := t.bottom)
            && (t.bottom - s.top == n || t.bottom - s.top == n - TWO_64)
  {
  }

  /** A return with no caller ends the run: whatever ticks are left, nothing else changes. */
  lemma LastReturn(p: Program, s: State, ticks: nat)
    requires Runnable(p, s) && p.code[s.pc].op == Return && s.calls == [] && ticks > 0
    ensures Exec(p, s, ticks) == Some(s.(finished := true))
  {
    assert Step(p, s) == Some(s.(finished := true));
  }

  /** A print adds one line and changes nothing else. */
  lemma PrintStep(p: Program, s: State)
    requires Runnable(p, s) && p.code[s.pc].op == Call && p.code[s.pc].arg0 in {SC_PRINT_I32, SC_PRINT_F32}
    ensures match Slot(s, p.code[s.pc].arg1, 4)
            case None => Step(p, s) == None
            case Some(a) =>
              && Step(p, s).Some? && |Step(p, s).value.console| == |s.console| + 1
              && Step(p, s).value == s.(pc := s.pc + 1, console := Step(p, s).value.console)
              && s.console < Step(p, s).value.console
              && Step(p, s).value.console[|s.console|] ==
                 if p.code[s.pc].arg0 == BUILT_IN_START + 1 then LineI32(Signed(Get32(s.stack, a)))
                 else LineF32(Get32(s.stack, a))
  {
    hide Slot, Get32;
  }
}
