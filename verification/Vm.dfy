/** The byte-code machine. `Step` and `Exec` say what one tick and `ticks` ticks do
    to a machine state; the class `ByteCodeVM` is the machine with its registers
    and its byte buffer, updated in place. */
module Vm {
  import opened Wrappers
  import opened Words

  const MAX_STACK: nat := 8_000_000
  const BUILT_IN_START: u64 := 0xFFFF_FFFF_FFFF_FFFF - 10000
  const SC_PRINT_I32: u64 := BUILT_IN_START + 1
  const SC_PRINT_F32: u64 := BUILT_IN_START + 3

  /** An address is a type byte over a 56-bit offset. */
  const TWO_56: int := 0x100_0000_0000_0000
  const STACK_TOP: nat := 3
  const STACK_TAIL: nat := 4

  function Base(kind: nat, offset: nat): u64
    requires kind < 0x100
  {
    kind * TWO_56 + offset % TWO_56
  }

  datatype Num = I32 | F32

  datatype Op =
    | Move
    | Set8 | Set32 | Set64
    | SetStackBottom
    | SavePC | Call | Return
    | Label
    | Bin(op: Arith, num: Num)    // AddI32, SubF32, ...
    | BinD(op: Arith, num: Num)   // AddI32D, SubF32D, ...
    | JumpGtI32 | JumpEqI32 | JumpGtEqI32

  datatype Instruction = Instruction(op: Op, arg0: u64, arg1: u64, arg2: u64)

  type Code = c: seq<Instruction> | |c| < TWO_64

  /** A program, with the float unit of the machine it runs on: the arithmetic on
      `float` is a parameter on 32-bit patterns. */
  datatype Program = Program(code: Code, fpu: (Arith, u32, u32) -> u32)

  datatype CallPoint = CallPoint(pc: u64, top: u64, bottom: u64, resAddr: u64)

  datatype Line = LineI32(i: i32) | LineF32(f: u32)

  datatype State = State(
    pc: u64, top: u64, bottom: u64, calls: seq<CallPoint>, finished: bool,
    stack: Memory, console: seq<Line>)

  /** The machine as constructed, with its program counter set to `pc`. */
  function Initial(pc: u64): State {
    State(pc, 0, 0, [], false, Zeroed(MAX_STACK), [])
  }

  function Zeroed(n: nat): Memory {
    seq(n, i => 0)
  }

  /** The index in the stack buffer an address denotes: 64-bit arithmetic, which wraps. */
  function Translate(top: u64, bottom: u64, addr: u64): Option<u64> {
    if addr / TWO_56 == STACK_TOP then Some((top + addr % TWO_56) % TWO_64)
    else if addr / TWO_56 == STACK_TAIL then Some((bottom + addr % TWO_56) % TWO_64)
    else None
  }

  /** The same, when the `width` bytes there are inside the buffer. */
  function Slot(s: State, addr: u64, width: nat): (r: Option<nat>)
    ensures r.Some? ==> r.value + width <= |s.stack|
  {
    var i :- Translate(s.top, s.bottom, addr);
    if i + width <= |s.stack| then Some(i) else None
  }

  /** The `n` bytes from `addr` on, each address translated by itself. */
  function ReadBytes(s: State, addr: u64, n: nat): (r: Option<seq<byte>>)
    ensures r.Some? ==> |r.value| == n
  {
    if n == 0 then Some([]) else
      var front :- ReadBytes(s, addr, n - 1);
      var a :- Slot(s, (addr + (n - 1)) % TWO_64, 1);
      Some(front + [s.stack[a]])
  }

  function WriteBytes(s: State, addr: u64, bytes: seq<byte>): (r: Option<State>)
    ensures r.Some? ==> r.value == s.(stack := r.value.stack) && |r.value.stack| == |s.stack|
  {
    if bytes == [] then Some(s) else
      var n := |bytes| - 1;
      var t :- WriteBytes(s, addr, bytes[..n]);
      var a :- Slot(t, (addr + n) % TWO_64, 1);
      Some(t.(stack := t.stack[a := bytes[n]]))
  }

  /** `x OP y` on two 32-bit patterns. */
  function Alu(p: Program, op: Arith, num: Num, x: u32, y: u32): Option<u32> {
    if num == F32 then Some(p.fpu(op, x, y)) else
      var r :- ArithI32(op, Signed(x), Signed(y));
      Some(Unsigned(r))
  }

  function Jump(s: State, ins: Instruction): Option<State>
    requires s.pc + 1 < TWO_64
  {
    var x :- Slot(s, ins.arg0, 4);
    var y :- Slot(s, ins.arg1, 4);
    var a, b := Signed(Get32(s.stack, x)), Signed(Get32(s.stack, y));
    if (ins.op == JumpGtI32 && a > b) || (ins.op == JumpEqI32 && a == b) || (ins.op == JumpGtEqI32 && a >= b) then
      var t :- Slot(s, ins.arg2, 8);
      Some(s.(pc := Get64(s.stack, t)))
    else
      Some(s.(pc := s.pc + 1))
  }

  function DoCall(s: State, ins: Instruction): Option<State>
    requires s.pc + 1 < TWO_64
  {
    if ins.arg0 < BUILT_IN_START then
      Some(s.(calls := s.calls + [CallPoint(s.pc + 1, s.top, s.bottom, ins.arg1)],
              pc := ins.arg0, top := s.bottom))
    else if ins.arg0 == SC_PRINT_I32 then
      var a :- Slot(s, ins.arg1, 4);
      Some(s.(console := s.console + [LineI32(Signed(Get32(s.stack, a)))], pc := s.pc + 1))
    else if ins.arg0 == SC_PRINT_F32 then
      var a :- Slot(s, ins.arg1, 4);
      Some(s.(console := s.console + [LineF32(Get32(s.stack, a))], pc := s.pc + 1))
    else
      None
  }

  function DoReturn(s: State, ins: Instruction): Option<State> {
    if s.calls == [] then Some(s.(finished := true)) else
      var content :- ReadBytes(s, ins.arg0, ins.arg1);
      var cp := s.calls[|s.calls| - 1];
      WriteBytes(s.(calls := s.calls[..|s.calls| - 1], top := cp.top, bottom := cp.bottom, pc := cp.pc),
                 cp.resAddr, content)
  }

  predicate Runnable(p: Program, s: State) {
    !s.finished && s.pc < |p.code|
  }

  /** The instructions that only write memory and move on. */
  predicate Stores(op: Op) {
    op.Move? || op.Set8? || op.Set32? || op.Set64? || op.SavePC?
  }

  function Store(s: State, ins: Instruction): Option<State>
    requires Stores(ins.op) && s.pc + 1 < TWO_64
  {
    var d :- Slot(s, ins.arg0, if ins.op.Move? || ins.op.Set8? then 1 else if ins.op.Set32? then 4 else 8);
    var stack :-
      match ins.op
      case Move => var f :- Slot(s, ins.arg1, 1); Some(s.stack[d := s.stack[f]])
      case Set8 => Some(s.stack[d := ins.arg1 % 0x100])
      case Set32 => Some(Put32(s.stack, d, ins.arg1 % TWO_32))
      case Set64 => Some(Put64(s.stack, d, ins.arg1))
      case SavePC => Some(Put64(s.stack, d, s.pc + 1));
    Some(s.(stack := stack, pc := s.pc + 1))
  }

  function Compute(p: Program, s: State, ins: Instruction): Option<State>
    requires (ins.op.Bin? || ins.op.BinD?) && s.pc + 1 < TWO_64
  {
    var d :- Slot(s, ins.arg0, 4);
    var r :-
      if ins.op.Bin? then
        var x :- Slot(s, ins.arg1, 4);
        var y :- Slot(s, ins.arg2, 4);
        Alu(p, ins.op.op, ins.op.num, Get32(s.stack, x), Get32(s.stack, y))
      else
        Alu(p, ins.op.op, ins.op.num, Get32(s.stack, d), ins.arg1 % TWO_32);
    Some(s.(stack := Put32(s.stack, d, r), pc := s.pc + 1))
  }

  /** One tick. Nothing, where C++ leaves the behaviour undefined (an access outside
      the buffer, an overflow, a zero divisor) or the machine stops on an assertion. */
  function Step(p: Program, s: State): Option<State>
    requires Runnable(p, s)
  {
    var ins := p.code[s.pc];
    match ins.op
    case SetStackBottom => Some(s.(bottom := (s.top + ins.arg0) % TWO_64, pc := s.pc + 1))
    case Call => DoCall(s, ins)
    case Return => DoReturn(s, ins)
    case Label => None
    case Bin(_, _) => Compute(p, s, ins)
    case BinD(_, _) => Compute(p, s, ins)
    case JumpGtI32 => Jump(s, ins)
    case JumpEqI32 => Jump(s, ins)
    case JumpGtEqI32 => Jump(s, ins)
    case _ => Store(s, ins)
  }

  function Exec(p: Program, s: State, ticks: nat): Option<State>
    decreases ticks
  {
    if ticks == 0 || !Runnable(p, s) then Some(s) else
      var t :- Step(p, s);
      Exec(p, t, ticks - 1)
  }

  /** Running `a + b` ticks is running `a` and then `b`. */
  lemma {:induction false} ExecAdd(p: Program, s: State, a: nat, b: nat)
    ensures Exec(p, s, a + b) == if Exec(p, s, a).None? then None else Exec(p, Exec(p, s, a).value, b)
    decreases a
  {
    hide Step;
    if a == 0 || !Runnable(p, s) {
    } else if Step(p, s).Some? {
      ExecAdd(p, Step(p, s).value, a - 1, b);
    }
  }

  class ByteCodeVM {
    const program: Program
    const stack: array<byte>
    var pc: u64
    var stackTop: u64
    var stackBottom: u64
    var callStack: seq<CallPoint>
    var finished: bool
    var console: seq<Line>

    ghost function View(): State
      reads this, stack
    {
      State(pc, stackTop, stackBottom, callStack, finished, stack[..], console)
    }

    constructor (program: Program)
      ensures this.program == program && fresh(stack)
      ensures View() == Initial(0)
    {
      this.program := program;
      stack := new byte[MAX_STACK](_ => 0);
      pc, stackTop, stackBottom, callStack, finished, console := 0, 0, 0, [], false, [];
      new;
      assert stack[..] == Zeroed(MAX_STACK);
    }

    method SetPc(pc: u64)
      modifies this`pc
      ensures View() == old(View()).(pc := pc)
    {
      this.pc := pc;
    }

    /** Runs at most `ticks` instructions. `ok` is false when one of them has no
        defined behaviour; the machine is then stopped where it was. */
    method Run(ticks: u64) returns (ok: bool)
      modifies this, stack
      ensures ok == Exec(program, old(View()), ticks).Some?
      ensures ok ==> View() == Exec(program, old(View()), ticks).value
    {
      hide Step;
      var i := 0;
      while i < ticks && !finished
        invariant i <= ticks
        invariant Exec(program, old(View()), ticks) == Exec(program, View(), ticks - i)
      {
        if pc >= |program.code| {
          break;
        }
        ok := Execute(program.code[pc]);
        if !ok {
          return;
        }
        i := i + 1;
      }
      ok := true;
    }

    method Execute(ins: Instruction) returns (ok: bool)
      requires Runnable(program, View()) && ins == program.code[pc]
      modifies this, stack
      ensures ok == Step(program, old(View())).Some?
      ensures ok ==> View() == Step(program, old(View())).value
    {
      match ins.op {
        case SetStackBottom =>
          stackBottom := (stackTop + ins.arg0) % TWO_64;
          pc := pc + 1;
          ok := true;
        case Call => ok := ExecuteCall(ins);
        case Return => ok := ExecuteReturn(ins);
        case Label => ok := false;
        case Bin(_, _) => ok := ExecuteCompute(ins);
        case BinD(_, _) => ok := ExecuteCompute(ins);
        case JumpGtI32 => ok := ExecuteJump(ins);
        case JumpEqI32 => ok := ExecuteJump(ins);
        case JumpGtEqI32 => ok := ExecuteJump(ins);
        case _ => ok := ExecuteStore(ins);
      }
    }

    method ExecuteStore(ins: Instruction) returns (ok: bool)
      requires Stores(ins.op) && pc + 1 < TWO_64
      modifies this, stack
      ensures ok == Store(old(View()), ins).Some?
      ensures ok ==> View() == Store(old(View()), ins).value
    {
      hide Put32, Put64, Translate;
      var d := TransAddr(ins.arg0, if ins.op.Move? || ins.op.Set8? then 1 else if ins.op.Set32? then 4 else 8);
      if d.None? { return false; }
      match ins.op {
        case Move =>
          var f := TransAddr(ins.arg1, 1);
          if f.None? { return false; }
          Store8(d.value, stack[f.value]);
        case Set8 => Store8(d.value, ins.arg1 % 0x100);
        case Set32 => Store32(d.value, ins.arg1 % TWO_32);
        case Set64 => Store64(d.value, ins.arg1);
        case SavePC => Store64(d.value, pc + 1);
      }
      pc := pc + 1;
      ok := true;
    }

    method ExecuteCompute(ins: Instruction) returns (ok: bool)
      requires (ins.op.Bin? || ins.op.BinD?) && pc + 1 < TWO_64
      modifies this, stack
      ensures ok == Compute(program, old(View()), ins).Some?
      ensures ok ==> View() == Compute(program, old(View()), ins).value
    {
      var d := TransAddr(ins.arg0, 4);
      if d.None? { return false; }
      var r: Option<u32>;
      if ins.op.Bin? {
        var x, y := TransAddr(ins.arg1, 4), TransAddr(ins.arg2, 4);
        if x.None? || y.None? { return false; }
        r := Alu(program, ins.op.op, ins.op.num, Load32(x.value), Load32(y.value));
      } else {
        r := Alu(program, ins.op.op, ins.op.num, Load32(d.value), ins.arg1 % TWO_32);
      }
      if r.None? { return false; }
      Store32(d.value, r.value);
      pc := pc + 1;
      ok := true;
    }

    method ExecuteJump(ins: Instruction) returns (ok: bool)
      requires pc + 1 < TWO_64
      modifies this
      ensures ok == Jump(old(View()), ins).Some?
      ensures ok ==> View() == Jump(old(View()), ins).value
    {
      var x, y := TransAddr(ins.arg0, 4), TransAddr(ins.arg1, 4);
      if x.None? || y.None? { return false; }
      var a, b := Signed(Load32(x.value)), Signed(Load32(y.value));
      if (ins.op == JumpGtI32 && a > b) || (ins.op == JumpEqI32 && a == b) || (ins.op == JumpGtEqI32 && a >= b) {
        var t := TransAddr(ins.arg2, 8);
        if t.None? { return false; }
        pc := Load64(t.value);
      } else {
        pc := pc + 1;
      }
      ok := true;
    }

    method ExecuteCall(ins: Instruction) returns (ok: bool)
      requires pc + 1 < TWO_64
      modifies this
      ensures ok == DoCall(old(View()), ins).Some?
      ensures ok ==> View() == DoCall(old(View()), ins).value
    {
      if ins.arg0 < BUILT_IN_START {
        callStack := callStack + [CallPoint(pc + 1, stackTop, stackBottom, ins.arg1)];
        pc := ins.arg0;
        stackTop := stackBottom;
        return true;
      }
      var a := TransAddr(ins.arg1, 4);
      if ins.arg0 == SC_PRINT_I32 && a.Some? {
        console := console + [LineI32(Signed(Load32(a.value)))];
      } else if ins.arg0 == SC_PRINT_F32 && a.Some? {
        console := console + [LineF32(Load32(a.value))];
      } else {
        return false;
      }
      pc := pc + 1;
      ok := true;
    }

    method ExecuteReturn(ins: Instruction) returns (ok: bool)
      modifies this, stack
      ensures ok == DoReturn(old(View()), ins).Some?
      ensures ok ==> View() == DoReturn(old(View()), ins).value
    {
      if callStack == [] {
        finished := true;
        return true;
      }
      var content := ReadResult(ins.arg0, ins.arg1);
      if content.None? { return false; }
      var cp := callStack[|callStack| - 1];
      callStack := callStack[..|callStack| - 1];
      stackTop := cp.top;
      stackBottom := cp.bottom;
      pc := cp.pc;
      ok := WriteResult(cp.resAddr, content.value);
    }

    method ReadResult(addr: u64, n: nat) returns (content: Option<seq<byte>>)
      ensures content == ReadBytes(View(), addr, n)
    {
      var bytes: seq<byte> := [];
      var i := 0;
      while i < n
        invariant i <= n
        invariant ReadBytes(View(), addr, i) == Some(bytes)
      {
        var a := TransAddr((addr + i) % TWO_64, 1);
        if a.None? {
          ReadBytesFails(View(), addr, i + 1, n);
          return None;
        }
        bytes := bytes + [stack[a.value]];
        i := i + 1;
      }
      content := Some(bytes);
    }

    method WriteResult(addr: u64, content: seq<byte>) returns (ok: bool)
      modifies stack
      ensures ok == WriteBytes(old(View()), addr, content).Some?
      ensures ok ==> View() == WriteBytes(old(View()), addr, content).value
    {
      var i := 0;
      while i < |content|
        invariant i <= |content|
        invariant WriteBytes(old(View()), addr, content[..i]) == Some(View())
      {
        var a := TransAddr((addr + i) % TWO_64, 1);
        assert content[..i + 1][..i] == content[..i];
        if a.None? {
          WriteBytesFails(old(View()), addr, content, i + 1);
          return false;
        }
        stack[a.value] := content[i];
        i := i + 1;
      }
      assert content[..i] == content;
      ok := true;
    }

    function TransAddr(addr: u64, width: nat): (r: Option<nat>)
      reads this, stack
      ensures r == Slot(View(), addr, width)
    {
      var i :- Translate(stackTop, stackBottom, addr);
      if i + width <= stack.Length then Some(i) else None
    }

    function Load32(a: nat): (r: u32)
      requires a + 4 <= stack.Length
      reads this, stack
      ensures r == Get32(stack[..], a)
    {
      var b0: int, b1: int, b2: int, b3: int := stack[a], stack[a + 1], stack[a + 2], stack[a + 3];
      b0 + 0x100 * b1 + 0x1_0000 * b2 + 0x100_0000 * b3
    }

    function Load64(a: nat): (r: u64)
      requires a + 8 <= stack.Length
      reads this, stack
      ensures r == Get64(stack[..], a)
    {
      Load32(a) + TWO_32 * Load32(a + 4)
    }

    method Store8(a: nat, v: byte)
      requires a < stack.Length
      modifies stack
      ensures stack[..] == old(stack[..])[a := v]
    {
      stack[a] := v;
    }

    method Store32(a: nat, u: u32)
      requires a + 4 <= stack.Length
      modifies stack
      ensures stack[..] == Put32(old(stack[..]), a, u)
    {
      stack[a], stack[a + 1] := u % 0x100, u / 0x100 % 0x100;
      stack[a + 2], stack[a + 3] := u / 0x1_0000 % 0x100, u / 0x100_0000;
    }

    method Store64(a: nat, u: u64)
      requires a + 8 <= stack.Length
      modifies stack
      ensures stack[..] == Put64(old(stack[..]), a, u)
    {
      Store32(a, u % TWO_32);
      Store32(a + 4, u / TWO_32);
    }
  }

  /** A read that fails at some byte fails as a whole; so does a write. */
  lemma {:induction false} ReadBytesFails(s: State, addr: u64, n: nat, m: nat)
    requires n <= m && ReadBytes(s, addr, n).None?
    ensures ReadBytes(s, addr, m).None?
  {
    if n < m {
      ReadBytesFails(s, addr, n, m - 1);
    }
  }

  lemma {:induction false} WriteBytesFails(s: State, addr: u64, bytes: seq<byte>, n: nat)
    requires n <= |bytes| && WriteBytes(s, addr, bytes[..n]).None?
    ensures WriteBytes(s, addr, bytes).None?
  {
    if n < |bytes| {
      assert bytes[..|bytes| - 1][..n] == bytes[..n];
      WriteBytesFails(s, addr, bytes[..|bytes| - 1], n);
    } else {
      assert bytes[..n] == bytes;
    }
  }
}
