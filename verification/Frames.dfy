/** The calling discipline of the machine: frames tile the stack, a callee leaves
    its caller's bytes alone, and a call and its return fit together. All results
    are about any program and any run, recursion included. */
module Frames {
  import opened Wrappers
  import opened Words
  import opened Vm

  // ----- frames tile the stack -----

  /** From address 0 up to `stack_bottom`, each frame starts where the one before it ends. */
  ghost predicate Tiled(s: State) {
    && s.top <= s.bottom
    && (if s.calls == [] then s.top else s.calls[0].top) == 0
    && (s.calls != [] ==> s.calls[|s.calls| - 1].bottom == s.top)
    && (forall i :: 0 <= i < |s.calls| ==> s.calls[i].top <= s.calls[i].bottom)
    && (forall i :: 0 < i < |s.calls| ==> s.calls[i].top == s.calls[i - 1].bottom)
  }

  /** The next instruction is a SetStackBottom whose sum leaves 64 bits. */
  predicate Wraps(p: Program, s: State) {
    Runnable(p, s) && p.code[s.pc].op == SetStackBottom && s.top + p.code[s.pc].arg0 >= TWO_64
  }

  /** One tick keeps the tiling exactly when it is not a wrapping SetStackBottom. */
  lemma StepTiling(p: Program, s: State)
    requires Tiled(s) && Runnable(p, s) && Step(p, s).Some?
    ensures Tiled(Step(p, s).value) <==> !Wraps(p, s)
  {
    hide Put32, Put64, Slot, Get32, Get64, Alu, ReadBytes, WriteBytes;
    var ins := p.code[s.pc];
    if ins.op == Return && s.calls != [] {
      var content := ReadBytes(s, ins.arg0, ins.arg1).value;
      var cp := s.calls[|s.calls| - 1];
      var u := s.(calls := s.calls[..|s.calls| - 1], top := cp.top, bottom := cp.bottom, pc := cp.pc);
      assert Step(p, s) == WriteBytes(u, cp.resAddr, content);
      assert Tiled(u);
    }
  }

  /** `s` and every state of the `n` ticks after it are tiled. */
  ghost predicate TiledThroughout(p: Program, s: State, n: nat)
    requires Exec(p, s, n).Some?
    decreases n
  {
    Tiled(s) && (n > 0 && Runnable(p, s) ==> TiledThroughout(p, Step(p, s).value, n - 1))
  }

  /** None of the first `n` ticks is a wrapping SetStackBottom. */
  ghost predicate NeverWraps(p: Program, s: State, n: nat)
    requires Exec(p, s, n).Some?
    decreases n
  {
    n > 0 && Runnable(p, s) ==> !Wraps(p, s) && NeverWraps(p, Step(p, s).value, n - 1)
  }

  /** Over whole runs: every state is tiled exactly when no SetStackBottom wraps. */
  lemma {:induction false} RunTiling(p: Program, s: State, n: nat)
    requires Tiled(s) && Exec(p, s, n).Some?
    ensures TiledThroughout(p, s, n) <==> NeverWraps(p, s, n)
    decreases n
  {
    hide Step, Tiled, Wraps;
    if n > 0 && Runnable(p, s) {
      var t := Step(p, s).value;
      StepTiling(p, s);
      if Tiled(t) {
        RunTiling(p, t, n - 1);
      }
    }
  }

  /** The machine starts tiled, so the result above speaks of every reachable state. */
  lemma ReachableTiled(p: Program, pc: u64, n: nat)
    requires Exec(p, Initial(pc), n).Some?
    requires NeverWraps(p, Initial(pc), n)
    ensures Tiled(Exec(p, Initial(pc), n).value)
  {
    RunTiling(p, Initial(pc), n);
    LastIsTiled(p, Initial(pc), n);
  }

  lemma {:induction false} LastIsTiled(p: Program, s: State, n: nat)
    requires Exec(p, s, n).Some? && TiledThroughout(p, s, n)
    ensures Tiled(Exec(p, s, n).value)
    decreases n
  {
    hide Step, Tiled;
    if n > 0 && Runnable(p, s) {
      LastIsTiled(p, Step(p, s).value, n - 1);
    }
  }

  /** A frame of 10 bytes, a routine called above it, and there a SetStackBottom of -1. */
  const WRAPPING: Code := [
    Instruction(SetStackBottom, 10, 0, 0), Instruction(Call, 2, 0, 0), Instruction(SetStackBottom, TWO_64 - 1, 0, 0)]

  /** The condition matters: this program runs, and its last state is not tiled. */
  lemma WrappingExample(p: Program)
    requires p.code == WRAPPING
    ensures Exec(p, Initial(0), 3).Some? && !NeverWraps(p, Initial(0), 3)
    ensures !Tiled(Exec(p, Initial(0), 3).value)
  {
    hide Zeroed, Compute, Store, Jump, DoReturn;
    var a := Step(p, Initial(0)).value;
    var b := Step(p, a).value;
    var c := Step(p, b).value;
    assert b.top == 10 && b.pc == 2 && c.bottom == 9;
    assert Exec(p, c, 0) == Some(c);
    assert Exec(p, b, 1) == Some(c);
    assert Exec(p, a, 2) == Some(c);
    assert Wraps(p, b) && !NeverWraps(p, b, 1);
    assert !NeverWraps(p, a, 2);
  }

  // ----- a callee leaves its caller's bytes alone -----

  /** Above this bound a base plus a 56-bit offset could leave 64 bits. */
  const ROOM: int := TWO_64 - TWO_56

  /** The next instruction is not a SetStackBottom past that bound. */
  predicate FrameFits(p: Program, s: State) {
    Runnable(p, s) && p.code[s.pc].op == SetStackBottom ==> s.top + p.code[s.pc].arg0 <= ROOM
  }

  /** Seen from a frame starting at byte `b` with `d` frames below it: the machine
      is in that frame or deeper. */
  ghost predicate Inside(s: State, d: nat, b: nat) {
    && |s.stack| <= MAX_STACK
    && d <= |s.calls|
    && b <= s.top <= ROOM && b <= s.bottom <= ROOM
    && forall i :: d <= i < |s.calls| ==> b <= s.calls[i].top <= ROOM && b <= s.calls[i].bottom <= ROOM
  }

  lemma SlotAbove(s: State, d: nat, b: nat, addr: u64, width: nat)
    requires Inside(s, d, b)
    ensures Slot(s, addr, width).Some? ==> b <= Slot(s, addr, width).value
  {
  }

  /** The bound is exact: from a base behind it, some address comes out at byte 0. */
  lemma IsolationExact(s: State, b: nat)
    requires 0 < b <= s.top && b <= s.bottom && s.stack != []
    ensures (forall addr: u64 :: Slot(s, addr, 1).Some? ==> b <= Slot(s, addr, 1).value)
       <==> s.top <= ROOM && s.bottom <= ROOM
  {
    if s.top > ROOM {
      WrapsToZero(s, STACK_TOP, s.top);
    } else if s.bottom > ROOM {
      WrapsToZero(s, STACK_TAIL, s.bottom);
    }
  }

  lemma WrapsToZero(s: State, kind: nat, from: u64)
    requires (kind == STACK_TOP && from == s.top) || (kind == STACK_TAIL && from == s.bottom)
    requires from > ROOM && s.stack != []
    ensures Slot(s, Base(kind, TWO_64 - from), 1) == Some(0)
  {
    assert Base(kind, TWO_64 - from) / TWO_56 == kind && Base(kind, TWO_64 - from) % TWO_56 == TWO_64 - from;
  }

  /** A frame that ends one byte before the top of the 64-bit range, and a routine that stores
      a byte at offset 5 of its own frame. */
  const ESCAPING: Code := [
    Instruction(SetStackBottom, TWO_64 - 1, 0, 0), Instruction(Call, 2, 0, 0),
    Instruction(Set8, Base(STACK_TOP, 5), 7, 0)]

  /** No sum of a SetStackBottom leaves 64 bits, the frames are tiled to the end, and yet the
      routine changes byte 4, which is its caller's. */
  lemma EscapingExample(p: Program)
    requires p.code == ESCAPING
    ensures Exec(p, Initial(0), 3).Some? && NeverWraps(p, Initial(0), 3) && !FrameFits(p, Initial(0))
    ensures var t := Exec(p, Initial(0), 3).value;
            && Tiled(t) && |t.calls| == 1 && 4 < t.calls[0].bottom
            && 4 < |t.stack| && t.stack[4] == 7 && Initial(0).stack[4] == 0
  {
    hide Compute, Jump, DoReturn, Base, Put32, Put64;
    assert Base(STACK_TOP, 5) / TWO_56 == STACK_TOP && Base(STACK_TOP, 5) % TWO_56 == 5 by { OffsetOf(5); }
    var s := Initial(0);
    var a := Step(p, s).value;
    var b := Step(p, a).value;
    assert b.top == TWO_64 - 1 && b.pc == 2 && b.stack == s.stack;
    assert Slot(b, Base(STACK_TOP, 5), 1) == Some(4);
    var c := Step(p, b).value;
    assert c.stack == s.stack[4 := 7];
    assert Exec(p, c, 0) == Some(c);
    assert Exec(p, b, 1) == Some(c) && NeverWraps(p, c, 0);
    assert Exec(p, a, 2) == Some(c) && NeverWraps(p, b, 1);
    assert NeverWraps(p, a, 2);
  }

  lemma OffsetOf(o: nat)
    requires o < TWO_56
    ensures Base(STACK_TOP, o) / TWO_56 == STACK_TOP && Base(STACK_TOP, o) % TWO_56 == o
  {
  }

  lemma {:induction false} WriteBytesAbove(s: State, d: nat, b: nat, addr: u64, bytes: seq<byte>)
    requires Inside(s, d, b) && WriteBytes(s, addr, bytes).Some?
    ensures SameBytes(s.stack, WriteBytes(s, addr, bytes).value.stack, 0, b)
  {
    hide Slot;
    if bytes != [] {
      var n := |bytes| - 1;
      WriteBytesAbove(s, d, b, addr, bytes[..n]);
      SlotAbove(WriteBytes(s, addr, bytes[..n]).value, d, b, (addr + n) % TWO_64, 1);
    }
  }

  /** One tick that does not return to the caller keeps the machine inside and
      writes nothing below `b`. */
  lemma StepInside(p: Program, s: State, d: nat, b: nat)
    requires Inside(s, d, b) && Runnable(p, s) && FrameFits(p, s)
    requires Step(p, s).Some? && d <= |Step(p, s).value.calls|
    ensures Inside(Step(p, s).value, d, b)
    ensures SameBytes(s.stack, Step(p, s).value.stack, 0, b)
    ensures s.calls[..d] == Step(p, s).value.calls[..d]
  {
    hide Put32, Put64, Slot, Get32, Get64, Alu, ReadBytes, WriteBytes;
    var ins := p.code[s.pc];
    SlotAbove(s, d, b, ins.arg0, 1);
    SlotAbove(s, d, b, ins.arg0, 4);
    SlotAbove(s, d, b, ins.arg0, 8);
    if ins.op == Return && s.calls != [] {
      var content := ReadBytes(s, ins.arg0, ins.arg1).value;
      var cp := s.calls[|s.calls| - 1];
      var u := s.(calls := s.calls[..|s.calls| - 1], top := cp.top, bottom := cp.bottom, pc := cp.pc);
      assert Step(p, s) == WriteBytes(u, cp.resAddr, content);
      assert Inside(u, d, b);
      WriteBytesAbove(u, d, b, cp.resAddr, content);
    }
  }

  /** For `n` ticks the machine has at least `d` saved frames and no SetStackBottom
      passes the bound. */
  ghost predicate StaysInside(p: Program, s: State, d: nat, n: nat)
    requires Exec(p, s, n).Some?
    decreases n
  {
    d <= |s.calls| && (n > 0 && Runnable(p, s) ==> FrameFits(p, s) && StaysInside(p, Step(p, s).value, d, n - 1))
  }

  lemma {:induction false} RunInside(p: Program, s: State, d: nat, b: nat, n: nat)
    requires Inside(s, d, b) && Exec(p, s, n).Some? && StaysInside(p, s, d, n)
    ensures Inside(Exec(p, s, n).value, d, b)
    ensures SameBytes(s.stack, Exec(p, s, n).value.stack, 0, b)
    ensures s.calls[..d] == Exec(p, s, n).value.calls[..d]
    decreases n
  {
    hide Step, FrameFits;
    if n > 0 && Runnable(p, s) {
      var t := Step(p, s).value;
      assert d <= |t.calls|;
      StepInside(p, s, d, b);
      RunInside(p, t, d, b, n - 1);
    }
  }

  // ----- a call and its return -----

  /** The bases are where address arithmetic cannot wrap. */
  predicate Roomy(s: State) {
    |s.stack| <= MAX_STACK && s.top <= ROOM && s.bottom <= ROOM
  }

  lemma OffsetAdds(addr: u64, n: nat)
    requires addr % TWO_56 + n < TWO_56
    ensures (addr + n) % TWO_64 == addr + n
    ensures (addr + n) / TWO_56 == addr / TWO_56 && (addr + n) % TWO_56 == addr % TWO_56 + n
  {
  }

  lemma SlotIs(s: State, addr: u64, n: nat)
    requires Roomy(s)
    ensures var base := if addr / TWO_56 == STACK_TOP then s.top else s.bottom;
            Slot(s, addr, n) ==
            if addr / TWO_56 in {STACK_TOP, STACK_TAIL} && base + addr % TWO_56 + n <= |s.stack|
            then Some(base + addr % TWO_56) else None
  {
  }

  /** Byte-wise translation finds the contiguous range of bytes at `addr`. */
  lemma SlotExtends(s: State, addr: u64, n: nat)
    requires Roomy(s) && n > 0
    ensures Slot(s, addr, n).Some? ==>
              && Slot(s, addr, n + 1).Some? == Slot(s, (addr + n) % TWO_64, 1).Some?
              && (Slot(s, addr, n + 1).Some? ==>
                    && Slot(s, addr, n + 1) == Slot(s, addr, n)
                    && Slot(s, (addr + n) % TWO_64, 1).value == Slot(s, addr, n).value + n)
    ensures Slot(s, addr, n).None? ==> Slot(s, addr, n + 1).None?
  {
    hide Slot;
    SlotIs(s, addr, n);
    SlotIs(s, addr, n + 1);
    if Slot(s, addr, n).Some? {
      OffsetAdds(addr, n);
      SlotIs(s, addr + n, 1);
    }
  }

  lemma {:induction false} ReadBytesMeaning(s: State, addr: u64, n: nat)
    requires Roomy(s) && n > 0
    ensures ReadBytes(s, addr, n).Some? <==> Slot(s, addr, n).Some?
    ensures Slot(s, addr, n).Some? ==>
              var a := Slot(s, addr, n).value; ReadBytes(s, addr, n).value == s.stack[a..a + n]
  {
    hide Slot;
    assert addr % TWO_64 == addr;
    if n == 1 {
      assert ReadBytes(s, addr, 0) == Some([]);
    } else {
      ReadBytesMeaning(s, addr, n - 1);
      SlotExtends(s, addr, n - 1);
    }
  }

  lemma {:induction false} WriteBytesMeaning(s: State, addr: u64, bytes: seq<byte>)
    requires Roomy(s) && bytes != []
    ensures WriteBytes(s, addr, bytes).Some? <==> Slot(s, addr, |bytes|).Some?
    ensures Slot(s, addr, |bytes|).Some? ==>
              var a := Slot(s, addr, |bytes|).value;
              WriteBytes(s, addr, bytes).value.stack == s.stack[..a] + bytes + s.stack[a + |bytes|..]
  {
    hide Slot;
    var n := |bytes| - 1;
    assert addr % TWO_64 == addr;
    if n == 0 {
      assert bytes[..0] == [];
      assert WriteBytes(s, addr, []) == Some(s);
    } else {
      WriteBytesMeaning(s, addr, bytes[..n]);
      SlotExtends(s, addr, n);
      if WriteBytes(s, addr, bytes[..n]).Some? {
        SlotIs(s, (addr + n) % TWO_64, 1);
        SlotIs(WriteBytes(s, addr, bytes[..n]).value, (addr + n) % TWO_64, 1);
      }
    }
  }

  /** `s` is about to call a routine of the program (not a built-in one). */
  predicate CallsRoutine(p: Program, s: State) {
    Runnable(p, s) && p.code[s.pc].op == Call && p.code[s.pc].arg0 < BUILT_IN_START
  }

  /** On entry the callee is at the named instruction, its frame starts where the
      caller's ends, no byte has changed, and what the caller addressed as
      STACK_TAIL + o is what the callee addresses as STACK_TOP + o. */
  lemma CallEntry(p: Program, s: State, o: nat, width: nat)
    requires CallsRoutine(p, s)
    ensures Step(p, s).Some?
    ensures var t := Step(p, s).value;
            && t.pc == p.code[s.pc].arg0 && t.top == s.bottom && t.bottom == s.bottom
            && t.stack == s.stack && t.console == s.console
            && Slot(t, Base(STACK_TOP, o), width) == Slot(s, Base(STACK_TAIL, o), width)
            && t.calls == s.calls + [CallPoint(s.pc + 1, s.top, s.bottom, p.code[s.pc].arg1)]
  {
  }

  /** `u` is `m` with the `len` bytes at `from` copied to `to`. */
  ghost predicate Delivers(m: Memory, u: Memory, from: nat, to: nat, len: nat)
    requires from + len <= |m| && to + len <= |u|
  {
    SameOutside(m, u, to, to + len) && u[to..to + len] == m[from..from + len]
  }

  /** From a call, through `n` ticks of the callee and whatever it calls, to the Return
      that matches it: control is after the call, the frame and the call stack are the
      caller's again, the bytes the callee named are at the caller's result address,
      and no other byte below the caller's stack_bottom has changed. */
  lemma MatchedCall(p: Program, s: State, n: nat)
    requires Roomy(s) && CallsRoutine(p, s)
    requires Exec(p, s, n + 1).Some? && StaysInside(p, Step(p, s).value, |s.calls| + 1, n)
    requires var t := Exec(p, s, n + 1).value;
             Runnable(p, t) && p.code[t.pc].op == Return && |t.calls| == |s.calls| + 1 && Step(p, t).Some?
    ensures var t, call := Exec(p, s, n + 1).value, p.code[s.pc];
            var ret := p.code[t.pc];
            var len := ret.arg1;
            Exec(p, s, n + 2) == Step(p, t) &&
            var u := Step(p, t).value;
            && u == s.(pc := s.pc + 1, stack := u.stack, console := t.console)
            && SameBytes(s.stack, t.stack, 0, s.bottom)
            && (len == 0 ==> u.stack == t.stack)
            && (len > 0 ==>
                 && Slot(t, ret.arg0, len).Some? && Slot(s, call.arg1, len).Some?
                 && var from, to := Slot(t, ret.arg0, len).value, Slot(s, call.arg1, len).value;
                    && |u.stack| == |t.stack| == |s.stack|
                    && Delivers(t.stack, u.stack, from, to, len)
                    && forall k :: 0 <= k < |s.stack| && k < s.bottom && !(to <= k < to + len) ==>
                         u.stack[k] == s.stack[k])
  {
    hide Step, Slot;
    var d, call := |s.calls| + 1, p.code[s.pc];
    CallEntry(p, s, 0, 0);
    var e := Step(p, s).value;
    RunInside(p, e, d, s.bottom, n);
    var t := Exec(p, s, n + 1).value;
    assert Exec(p, s, n + 1) == Exec(p, e, n);
    ExecAdd(p, s, n + 1, 1);
    OneTick(p, t);
    assert t.calls == e.calls by {
      assert t.calls[..d] == t.calls && e.calls[..d] == e.calls;
    }
    ReturnEffect(p, s, t, call.arg1);
  }

  lemma OneTick(p: Program, t: State)
    requires Runnable(p, t)
    ensures Exec(p, t, 1) == Step(p, t)
  {
    hide Step;
    assert Step(p, t).Some? ==> Exec(p, Step(p, t).value, 0) == Step(p, t);
  }

  /** What the matching Return does in state `t`, for the caller state `s`. */
  lemma ReturnEffect(p: Program, s: State, t: State, resAddr: u64)
    requires Roomy(s) && Roomy(t) && |s.stack| == |t.stack| && s.pc + 1 < TWO_64 && !s.finished && !t.finished
    requires Runnable(p, t) && p.code[t.pc].op == Return && Step(p, t).Some?
    requires t.calls == s.calls + [CallPoint(s.pc + 1, s.top, s.bottom, resAddr)]
    ensures var ret, u := p.code[t.pc], Step(p, t).value;
            var len := ret.arg1;
            && u == s.(pc := s.pc + 1, stack := u.stack, console := t.console)
            && (len == 0 ==> u.stack == t.stack)
            && (len > 0 ==>
                 && Slot(t, ret.arg0, len).Some? && Slot(s, resAddr, len).Some?
                 && var from, to := Slot(t, ret.arg0, len).value, Slot(s, resAddr, len).value;
                    |u.stack| == |t.stack| && Delivers(t.stack, u.stack, from, to, len))
  {
    hide Step, Slot, ReadBytes, WriteBytes;
    var ret := p.code[t.pc];
    var v := t.(calls := s.calls, top := s.top, bottom := s.bottom, pc := s.pc + 1);
    ReturnStep(p, t, v, resAddr);
    var content := ReadBytes(t, ret.arg0, ret.arg1).value;
    if ret.arg1 > 0 {
      ReadBytesMeaning(t, ret.arg0, ret.arg1);
      WriteBytesMeaning(v, resAddr, content);
      SlotIs(v, resAddr, |content|);
      SlotIs(s, resAddr, |content|);
    } else {
      assert content == [] && WriteBytes(v, resAddr, content) == Some(v) by { EmptyResult(t, v, ret.arg0, resAddr); }
    }
  }

  lemma EmptyResult(t: State, v: State, from: u64, to: u64)
    ensures ReadBytes(t, from, 0) == Some([]) && WriteBytes(v, to, []) == Some(v)
  {
  }

  lemma ReturnStep(p: Program, t: State, v: State, resAddr: u64)
    requires Runnable(p, t) && p.code[t.pc].op == Return && Step(p, t).Some?
    requires t.calls == v.calls + [CallPoint(v.pc, v.top, v.bottom, resAddr)]
    requires v == t.(calls := v.calls, top := v.top, bottom := v.bottom, pc := v.pc)
    ensures var ret := p.code[t.pc];
            && ReadBytes(t, ret.arg0, ret.arg1).Some?
            && Step(p, t) == WriteBytes(v, resAddr, ReadBytes(t, ret.arg0, ret.arg1).value)
  {
    hide Put32, Put64, Get32, Get64, Alu, Slot, ReadBytes, WriteBytes;
    assert t.calls[..|t.calls| - 1] == v.calls;
  }
}
