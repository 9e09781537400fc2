/** Counted loops in byte code: save the address of the loop head, bump a counter, run a
    body, and jump back through memory while the limit exceeds the counter. */
module CountedLoop {
  import opened Wrappers
  import opened Words
  import opened Vm
  import opened ExprCompiler
  import opened ExprCorrect

  /** The offsets of the counter, the limit and the saved address in a frame of `room` bytes. */
  datatype Slots = Slots(count: nat, times: nat, save: nat, room: nat)

  predicate Disjoint(a: nat, m: nat, b: nat, n: nat) {
    a + m <= b || b + n <= a
  }

  predicate WellPlaced(l: Slots) {
    && l.count + 4 <= l.room && l.times + 4 <= l.room && l.save + 8 <= l.room
    && Disjoint(l.count, 4, l.times, 4) && Disjoint(l.count, 4, l.save, 8) && Disjoint(l.times, 4, l.save, 8)
  }

  /** `width` bytes of the frame. */
  predicate InFrame(l: Slots, addr: u64, width: nat) {
    addr / TWO_56 == STACK_TOP && addr % TWO_56 + width <= l.room
  }

  predicate Misses(l: Slots, addr: u64, width: nat) {
    var o := addr % TWO_56;
    Disjoint(o, width, l.count, 4) && Disjoint(o, width, l.times, 4) && Disjoint(o, width, l.save, 8)
  }

  function Width(op: Op): nat {
    if op.Move? || op.Set8? then 1 else if op.Set64? then 8 else 4
  }

  /** An instruction of a loop body: a store or float arithmetic inside the frame that
      misses the three slots. */
  predicate Tame(l: Slots, ins: Instruction) {
    && (ins.op.Move? || ins.op.Set8? || ins.op.Set32? || ins.op.Set64? || (ins.op.Bin? && ins.op.num == F32)
        || (ins.op.BinD? && ins.op.num == F32))
    && InFrame(l, ins.arg0, Width(ins.op)) && Misses(l, ins.arg0, Width(ins.op))
    && (ins.op.Move? ==> InFrame(l, ins.arg1, 1))
    && (ins.op.Bin? ==> InFrame(l, ins.arg1, 4) && InFrame(l, ins.arg2, 4))
  }

  function LoopCode(l: Slots, body: seq<Instruction>): seq<Instruction> {
    [Instruction(SavePC, Base(STACK_TOP, l.save), 0, 0),
     Instruction(BinD(Arith.Add, I32), Base(STACK_TOP, l.count), 1, 0)]
    + body
    + [Instruction(JumpGtI32, Base(STACK_TOP, l.times), Base(STACK_TOP, l.count), Base(STACK_TOP, l.save))]
  }

  /** The same frame of the same call, later: only the program counter and bytes differ. */
  ghost predicate SameFrame(s: State, t: State) {
    t == s.(pc := t.pc, stack := t.stack) && |t.stack| == |s.stack|
  }

  /** The words of the three slots. */
  function Count(s: State, l: Slots): i32
    requires Ready(s, 0, l.room) && WellPlaced(l)
  {
    Signed(Get32(s.stack, s.top + l.count))
  }

  function Times(s: State, l: Slots): i32
    requires Ready(s, 0, l.room) && WellPlaced(l)
  {
    Signed(Get32(s.stack, s.top + l.times))
  }

  function Saved(s: State, l: Slots): u64
    requires Ready(s, 0, l.room) && WellPlaced(l)
  {
    Get64(s.stack, s.top + l.save)
  }

  /** How often the machine is about to execute the instruction at `pc`. */
  function Visits(p: Program, s: State, ticks: nat, pc: nat): nat
    decreases ticks
  {
    if ticks == 0 || !Runnable(p, s) then 0 else
      (if s.pc == pc then 1 else 0) + (if Step(p, s).None? then 0 else Visits(p, Step(p, s).value, ticks - 1, pc))
  }

  lemma {:induction false} VisitsAdd(p: Program, s: State, a: nat, b: nat, pc: nat)
    requires Exec(p, s, a).Some?
    ensures Visits(p, s, a + b, pc) == Visits(p, s, a, pc) + Visits(p, Exec(p, s, a).value, b, pc)
    decreases a
  {
    hide Step;
    if a > 0 && Runnable(p, s) {
      VisitsAdd(p, Step(p, s).value, a - 1, b, pc);
    }
  }

  lemma FrameSlot(l: Slots, s: State, addr: u64, width: nat)
    requires Ready(s, 0, l.room) && InFrame(l, addr, width)
    ensures Slot(s, addr, width) == Some(s.top + addr % TWO_56)
  {
  }

  /** One body instruction: it runs, and leaves the slots alone. */
  lemma TameStep(p: Program, s: State, l: Slots)
    requires Ready(s, 0, l.room) && WellPlaced(l) && Runnable(p, s) && Tame(l, p.code[s.pc])
    ensures Step(p, s).Some?
    ensures var t := Step(p, s).value;
            SameFrame(s, t) && t.pc == s.pc + 1 && SlotsSame(s, t, l)
  {
    hide Slot, Put32, Put64, Get32, Get64, InFrame, Base;
    var ins := p.code[s.pc];
    FrameSlot(l, s, ins.arg0, Width(ins.op));
    if ins.op.Move? {
      FrameSlot(l, s, ins.arg1, 1);
    } else if ins.op.Bin? {
      FrameSlot(l, s, ins.arg1, 4);
      FrameSlot(l, s, ins.arg2, 4);
    }
  }

  ghost predicate SlotsSame(s: State, t: State, l: Slots) {
    && SameBytes(s.stack, t.stack, s.top + l.count, s.top + l.count + 4)
    && SameBytes(s.stack, t.stack, s.top + l.times, s.top + l.times + 4)
    && SameBytes(s.stack, t.stack, s.top + l.save, s.top + l.save + 8)
  }

  lemma SlotsSameWords(s: State, t: State, l: Slots)
    requires Ready(s, 0, l.room) && WellPlaced(l) && SameFrame(s, t) && SlotsSame(s, t, l)
    ensures Count(t, l) == Count(s, l) && Times(t, l) == Times(s, l) && Saved(t, l) == Saved(s, l)
  {
  }

  /** The body from its `i`-th instruction on. */
  lemma {:induction false} BodyRuns(p: Program, s: State, l: Slots, body: seq<Instruction>, i: nat, head: nat)
    requires Ready(s, 0, l.room) && WellPlaced(l) && i <= |body| && head < s.pc
    requires (forall k :: 0 <= k < |body| ==> Tame(l, body[k])) && CodeAt(p, s.pc, body[i..])
    ensures Exec(p, s, |body| - i).Some? && Visits(p, s, |body| - i, head) == 0
    ensures var t := Exec(p, s, |body| - i).value;
            SameFrame(s, t) && t.pc == s.pc + (|body| - i) && SlotsSame(s, t, l)
    decreases |body| - i
  {
    hide Step, Tame, WellPlaced;
    if i < |body| {
      assert p.code[s.pc] == p.code[s.pc..s.pc + |body[i..]|][0] == body[i];
      TameStep(p, s, l);
      var t := Step(p, s).value;
      assert p.code[t.pc..t.pc + |body[i + 1..]|] == p.code[s.pc..s.pc + |body[i..]|][1..] == body[i + 1..];
      BodyRuns(p, t, l, body, i + 1, head);
    }
  }

  lemma SaveStep(p: Program, s: State, l: Slots)
    requires Ready(s, 0, l.room) && WellPlaced(l) && Runnable(p, s)
    requires p.code[s.pc] == Instruction(SavePC, Base(STACK_TOP, l.save), 0, 0)
    ensures Step(p, s).Some?
    ensures var t := Step(p, s).value;
            && SameFrame(s, t) && t.pc == s.pc + 1 && Count(t, l) == Count(s, l) && Times(t, l) == Times(s, l)
            && Saved(t, l) == s.pc + 1 && SameOutside(s.stack, t.stack, s.top + l.save, s.top + l.save + 8)
  {
    hide Slot, Put64, Get32, Get64, Base;
    TopSlot(s, l.save, 8);
    var t := Step(p, s).value;
    assert t.stack == Put64(s.stack, s.top + l.save, s.pc + 1);
    Get32Same(s.stack, t.stack, s.top + l.count);
    Get32Same(s.stack, t.stack, s.top + l.times);
  }

  lemma BumpStep(p: Program, s: State, l: Slots)
    requires Ready(s, 0, l.room) && WellPlaced(l) && Runnable(p, s) && Count(s, l) < I32_MAX
    requires p.code[s.pc] == Instruction(BinD(Arith.Add, I32), Base(STACK_TOP, l.count), 1, 0)
    ensures Step(p, s).Some?
    ensures var t := Step(p, s).value;
            && SameFrame(s, t) && t.pc == s.pc + 1 && Count(t, l) == Count(s, l) + 1 && Times(t, l) == Times(s, l)
            && Saved(t, l) == Saved(s, l) && SameOutside(s.stack, t.stack, s.top + l.count, s.top + l.count + 4)
  {
    hide Slot, Put32, Get32, Base;
    TopSlot(s, l.count, 4);
    var t := Step(p, s).value;
    assert t.stack == Put32(s.stack, s.top + l.count, Unsigned(Count(s, l) + 1));
    Get32Same(s.stack, t.stack, s.top + l.times);
    Get32Same(s.stack, t.stack, s.top + l.save);
    Get32Same(s.stack, t.stack, s.top + l.save + 4);
  }

  lemma JumpStep(p: Program, s: State, l: Slots)
    requires Ready(s, 0, l.room) && WellPlaced(l) && Runnable(p, s)
    requires p.code[s.pc] ==
             Instruction(JumpGtI32, Base(STACK_TOP, l.times), Base(STACK_TOP, l.count), Base(STACK_TOP, l.save))
    ensures Step(p, s) == Some(s.(pc := if Times(s, l) > Count(s, l) then Saved(s, l) else s.pc + 1))
  {
    hide Slot, Get32, Get64, Base;
    TopSlot(s, l.times, 4);
    TopSlot(s, l.count, 4);
    TopSlot(s, l.save, 8);
  }

  /** The loop's instructions, by position. */
  lemma LoopAt(p: Program, h: nat, l: Slots, body: seq<Instruction>)
    requires CodeAt(p, h, LoopCode(l, body))
    ensures h + |body| + 3 <= |p.code|
    ensures p.code[h] == Instruction(SavePC, Base(STACK_TOP, l.save), 0, 0)
    ensures p.code[h + 1] == Instruction(BinD(Arith.Add, I32), Base(STACK_TOP, l.count), 1, 0)
    ensures CodeAt(p, h + 2, body)
    ensures p.code[h + 2 + |body|] ==
            Instruction(JumpGtI32, Base(STACK_TOP, l.times), Base(STACK_TOP, l.count), Base(STACK_TOP, l.save))
  {
    hide Base;
    var code, n := LoopCode(l, body), |LoopCode(l, body)|;
    assert forall k :: 0 <= k < n ==> code[k] == p.code[h + k];
    assert code[0] == p.code[h] && code[1] == p.code[h + 1] && code[n - 1] == p.code[h + (n - 1)];
    assert p.code[h + 2..h + 2 + |body|] == code[2..2 + |body|] == body;
  }

  /** One round: bump, body, jump. */
  lemma Round(p: Program, s: State, l: Slots, body: seq<Instruction>, h: nat)
    requires Ready(s, 0, l.room) && WellPlaced(l) && Count(s, l) < I32_MAX
    requires CodeAt(p, h, LoopCode(l, body)) && (forall k :: 0 <= k < |body| ==> Tame(l, body[k]))
    requires s.pc == h + 1 == Saved(s, l)
    ensures Exec(p, s, |body| + 2).Some? && Visits(p, s, |body| + 2, h + 1) == 1
    ensures var t := Exec(p, s, |body| + 2).value;
            && SameFrame(s, t) && Count(t, l) == Count(s, l) + 1 && Times(t, l) == Times(s, l) && Saved(t, l) == h + 1
            && t.pc == if Times(s, l) > Count(s, l) + 1 then h + 1 else h + |body| + 3
  {
    hide Step, Exec, Tame, WellPlaced, LoopCode, Count, Times, Saved, SlotsSame;
    LoopAt(p, h, l, body);
    BumpStep(p, s, l);
    var a := Step(p, s).value;
    OneStep(p, s, h + 1);
    assert body[0..] == body;
    BodyRuns(p, a, l, body, 0, h + 1);
    var b := Exec(p, a, |body|).value;
    SlotsSameWords(a, b, l);
    JumpStep(p, b, l);
    OneStep(p, b, h + 1);
    ExecAdd(p, s, 1, |body|);
    VisitsAdd(p, s, 1, |body|, h + 1);
    ExecAdd(p, s, 1 + |body|, 1);
    VisitsAdd(p, s, 1 + |body|, 1, h + 1);
    SameSlots(b, Step(p, b).value, l);
  }

  lemma SameSlots(s: State, t: State, l: Slots)
    requires Ready(s, 0, l.room) && WellPlaced(l) && t == s.(pc := t.pc)
    ensures Count(t, l) == Count(s, l) && Times(t, l) == Times(s, l) && Saved(t, l) == Saved(s, l)
  {
  }

  lemma OneStep(p: Program, s: State, pc: nat)
    requires Runnable(p, s) && Step(p, s).Some?
    ensures Exec(p, s, 1) == Step(p, s) && Visits(p, s, 1, pc) == if s.pc == pc then 1 else 0
  {
    hide Step;
    assert Exec(p, Step(p, s).value, 0) == Step(p, s) && Visits(p, Step(p, s).value, 0, pc) == 0;
  }

  /** The rounds still to go when the counter is `c` and the limit `n`. */
  function Rounds(n: int, c: int): nat {
    if n - c <= 1 then 1 else n - c
  }

  /** The ticks of so many rounds of a body of `len` instructions. */
  function TicksOf(rounds: nat, len: nat): nat {
    rounds * (len + 2)
  }

  lemma {:induction false} RoundsRun(p: Program, s: State, l: Slots, body: seq<Instruction>, h: nat)
    requires Ready(s, 0, l.room) && WellPlaced(l) && Count(s, l) < I32_MAX
    requires CodeAt(p, h, LoopCode(l, body)) && (forall k :: 0 <= k < |body| ==> Tame(l, body[k]))
    requires s.pc == h + 1 == Saved(s, l)
    ensures var j := Rounds(Times(s, l), Count(s, l));
            && Exec(p, s, TicksOf(j, |body|)).Some? && Visits(p, s, TicksOf(j, |body|), h + 1) == j
            && var t := Exec(p, s, TicksOf(j, |body|)).value;
               SameFrame(s, t) && Count(t, l) == Count(s, l) + j && Times(t, l) == Times(s, l) && t.pc == h + |body| + 3
    decreases Times(s, l) - Count(s, l)
  {
    hide Step, Exec, Tame, WellPlaced, LoopCode, Count, Times, Saved, Visits;
    var j, m := Rounds(Times(s, l), Count(s, l)), |body| + 2;
    Round(p, s, l, body, h);
    if Times(s, l) > Count(s, l) + 1 {
      var t := Exec(p, s, m).value;
      RoundsRun(p, t, l, body, h);
      ExecAdd(p, s, m, TicksOf(j - 1, |body|));
      VisitsAdd(p, s, m, TicksOf(j - 1, |body|), h + 1);
      assert m + (j - 1) * m == j * m;
    }
  }

  /** The machine stands at `pc` in the frame of `s`, with its counter at `count`. */
  ghost predicate LeftLoop(s: State, t: State, l: Slots, pc: nat, count: int)
    requires Ready(s, 0, l.room) && WellPlaced(l)
  {
    t.pc == pc && SameFrame(s, t) && Count(t, l) == count && Times(t, l) == Times(s, l)
  }

  /** Entered with its counter at 0 and any limit n, the loop ends after max(1, n) rounds
      of its body, exactly that many, with the counter at that number. */
  lemma LoopRuns(p: Program, s: State, l: Slots, body: seq<Instruction>)
    requires Ready(s, 0, l.room) && WellPlaced(l) && Count(s, l) == 0
    requires CodeAt(p, s.pc, LoopCode(l, body)) && (forall k :: 0 <= k < |body| ==> Tame(l, body[k]))
    ensures var n := Times(s, l);
            var rounds: nat := if n < 1 then 1 else n;
            var ticks := 1 + TicksOf(rounds, |body|);
            && Exec(p, s, ticks).Some? && Visits(p, s, ticks, s.pc + 1) == rounds
            && LeftLoop(s, Exec(p, s, ticks).value, l, s.pc + |body| + 3, rounds)
  {
    hide Step, Exec, Tame, WellPlaced, LoopCode, Count, Times, Saved, Visits, TicksOf;
    LoopAt(p, s.pc, l, body);
    SaveStep(p, s, l);
    OneStep(p, s, s.pc + 1);
    var t := Step(p, s).value;
    RoundsRun(p, t, l, body, s.pc);
    var rounds := Rounds(Times(s, l), 0);
    ExecAdd(p, s, 1, TicksOf(rounds, |body|));
    VisitsAdd(p, s, 1, TicksOf(rounds, |body|), s.pc + 1);
  }

  // ----- any body that comes back -----

  /** The same call, later: the program counter, bytes and the console may differ. */
  ghost predicate SameCall(s: State, t: State) {
    t == s.(pc := t.pc, stack := t.stack, console := t.console) && |t.stack| == |s.stack|
  }

  ghost predicate LoopWrites(l: Slots, s: State, t: State) {
    || SameOutside(s.stack, t.stack, s.top + l.count, s.top + l.count + 4)
    || SameOutside(s.stack, t.stack, s.top + l.save, s.top + l.save + 8)
  }

  /** A condition on states that the loop's own instructions cannot break. */
  ghost predicate Indifferent(l: Slots, inv: State -> bool) {
    forall s, t :: inv(s) && SameFrame(s, t) && LoopWrites(l, s, t) ==> inv(t)
  }

  /** After `n` instructions the body has come to its end, without passing the loop's head,
      with the three slots as they were and the condition kept. */
  ghost predicate Back(p: Program, l: Slots, inv: State -> bool, s: State, n: nat, end: nat, head: nat) {
    && Exec(p, s, n).Some? && Visits(p, s, n, head) == 0
    && var t := Exec(p, s, n).value; SameCall(s, t) && SlotsSame(s, t, l) && t.pc == end && inv(t)
  }

  /** From every state of the condition, the body comes back: whatever it does on the way,
      be it arithmetic, prints, jumps or calls. */
  ghost predicate ComesBack(p: Program, l: Slots, inv: State -> bool, start: nat, end: nat, head: nat) {
    forall s :: Ready(s, 0, l.room) && s.pc == start && inv(s) ==> exists n: nat :: Back(p, l, inv, s, n, end, head)
  }

  lemma SlotsKept(s: State, t: State, l: Slots)
    requires Ready(s, 0, l.room) && WellPlaced(l) && SameCall(s, t) && SlotsSame(s, t, l)
    ensures Count(t, l) == Count(s, l) && Times(t, l) == Times(s, l) && Saved(t, l) == Saved(s, l)
  {
  }

  lemma AnyRound(p: Program, s: State, l: Slots, body: seq<Instruction>, inv: State -> bool, h: nat) returns (n: nat)
    requires Ready(s, 0, l.room) && WellPlaced(l) && Count(s, l) < I32_MAX && inv(s) && Indifferent(l, inv)
    requires CodeAt(p, h, LoopCode(l, body)) && ComesBack(p, l, inv, h + 2, h + 2 + |body|, h + 1)
    requires s.pc == h + 1 == Saved(s, l)
    ensures Exec(p, s, n).Some? && Visits(p, s, n, h + 1) == 1
    ensures var t := Exec(p, s, n).value;
            && SameCall(s, t) && inv(t) && Count(t, l) == Count(s, l) + 1 && Times(t, l) == Times(s, l)
            && Saved(t, l) == h + 1 && t.pc == if Times(s, l) > Count(s, l) + 1 then h + 1 else h + |body| + 3
  {
    hide Step, Exec, WellPlaced, LoopCode, Count, Times, Saved, SlotsSame, Visits;
    LoopAt(p, h, l, body);
    BumpStep(p, s, l);
    var a := Step(p, s).value;
    OneStep(p, s, h + 1);
    var m: nat :| Back(p, l, inv, a, m, h + 2 + |body|, h + 1);
    var b := Exec(p, a, m).value;
    SlotsKept(a, b, l);
    JumpStep(p, b, l);
    OneStep(p, b, h + 1);
    ExecAdd(p, s, 1, m);
    VisitsAdd(p, s, 1, m, h + 1);
    ExecAdd(p, s, 1 + m, 1);
    VisitsAdd(p, s, 1 + m, 1, h + 1);
    SameSlots(b, Step(p, b).value, l);
    assert SameOutside(b.stack, b.stack, b.top + l.count, b.top + l.count + 4);
    n := m + 2;
  }

  lemma {:induction false} AnyRoundsRun(
      p: Program, s: State, l: Slots, body: seq<Instruction>, inv: State -> bool, h: nat) returns (ticks: nat)
    requires Ready(s, 0, l.room) && WellPlaced(l) && Count(s, l) < I32_MAX && inv(s) && Indifferent(l, inv)
    requires CodeAt(p, h, LoopCode(l, body)) && ComesBack(p, l, inv, h + 2, h + 2 + |body|, h + 1)
    requires s.pc == h + 1 == Saved(s, l)
    ensures var j := Rounds(Times(s, l), Count(s, l));
            && Exec(p, s, ticks).Some? && Visits(p, s, ticks, h + 1) == j
            && var t := Exec(p, s, ticks).value;
               && SameCall(s, t) && inv(t) && Count(t, l) == Count(s, l) + j && Times(t, l) == Times(s, l)
               && t.pc == h + |body| + 3
    decreases Times(s, l) - Count(s, l)
  {
    hide Step, Exec, WellPlaced, LoopCode, Count, Times, Saved, Visits, Indifferent, ComesBack;
    ticks := AnyRound(p, s, l, body, inv, h);
    if Times(s, l) > Count(s, l) + 1 {
      var t := Exec(p, s, ticks).value;
      var more := AnyRoundsRun(p, t, l, body, inv, h);
      ExecAdd(p, s, ticks, more);
      VisitsAdd(p, s, ticks, more, h + 1);
      ticks := ticks + more;
    }
  }

  /** The same for every body that comes back: exactly max(1, n) rounds, and the end. */
  lemma AnyLoopRuns(p: Program, s: State, l: Slots, body: seq<Instruction>, inv: State -> bool) returns (ticks: nat)
    requires Ready(s, 0, l.room) && WellPlaced(l) && Count(s, l) == 0 && inv(s) && Indifferent(l, inv)
    requires CodeAt(p, s.pc, LoopCode(l, body)) && ComesBack(p, l, inv, s.pc + 2, s.pc + 2 + |body|, s.pc + 1)
    ensures var n := Times(s, l);
            var rounds: nat := if n < 1 then 1 else n;
            && Exec(p, s, ticks).Some? && Visits(p, s, ticks, s.pc + 1) == rounds
            && var t := Exec(p, s, ticks).value;
               && SameCall(s, t) && inv(t) && Count(t, l) == rounds && Times(t, l) == n && t.pc == s.pc + |body| + 3
  {
    hide Step, Exec, WellPlaced, LoopCode, Count, Times, Saved, Visits, ComesBack;
    LoopAt(p, s.pc, l, body);
    SaveStep(p, s, l);
    OneStep(p, s, s.pc + 1);
    var more := AnyRoundsRun(p, Step(p, s).value, l, body, inv, s.pc);
    ExecAdd(p, s, 1, more);
    VisitsAdd(p, s, 1, more, s.pc + 1);
    ticks := 1 + more;
  }

  predicate Anything(s: State) {
    true
  }

  /** Straight bodies of stores and float arithmetic off the slots are such bodies. */
  lemma TameComesBack(p: Program, l: Slots, body: seq<Instruction>, start: nat, head: nat)
    requires WellPlaced(l) && head < start && CodeAt(p, start, body)
    requires forall k :: 0 <= k < |body| ==> Tame(l, body[k])
    ensures ComesBack(p, l, Anything, start, start + |body|, head)
  {
    hide Step, Exec, Tame, WellPlaced, SlotsSame, Visits;
    assert body[0..] == body;
    var end := start + |body|;
    forall s | Ready(s, 0, l.room) && s.pc == start ensures exists n: nat :: Back(p, l, Anything, s, n, end, head) {
      BodyRuns(p, s, l, body, 0, head);
      assert Back(p, l, Anything, s, |body|, end, head);
    }
  }
}
