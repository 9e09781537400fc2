/** Compiler correctness for blocks of declarations, assignments, expressions, one-argument
    prints, statements that emit nothing, and loops over such blocks. */
module StmtCorrect {
  import opened Wrappers
  import opened Words
  import opened Vm
  import opened Tokens
  import opened Ast
  import opened ExprCompiler
  import opened ExprCorrect
  import opened StmtCompiler
  import Agreement

  // ----- the layout of a function -----

  ghost predicate Apart(a: VarInfo, b: VarInfo) {
    a.size == 0 || b.size == 0 || a.address + a.size <= b.address || b.address + b.size <= a.address
  }

  /** Recorded variables lie below the stack top and do not overlap. */
  ghost predicate Laid(l: Layout) {
    && (forall x :: x in l.vars ==> l.vars[x].address + l.vars[x].size <= l.top)
    && (forall x, y :: x in l.vars && y in l.vars && x != y ==> Apart(l.vars[x], l.vars[y]))
  }

  /** `m` comes after `l`: the stack has not shrunk and no variable has moved. */
  ghost predicate Extends(l: Layout, m: Layout) {
    l.top <= m.top && forall x :: x in l.vars ==> x in m.vars && m.vars[x] == l.vars[x]
  }

  /** Whatever the statements (branches and loops included), compiling keeps recorded
      variables where they are, below the stack top and apart. */
  lemma {:induction false} LayoutKept(fw: FloatWord, sizes: Sizes, l: Layout, lab: nat, n: Node)
    requires Laid(l)
    ensures var m := CompileNode(fw, sizes, l, lab, n).layout; Laid(m) && Extends(l, m)
    decreases n, 1
  {
    match n {
      case IfNode(branches, tailElse) =>
        LayoutKeptBranches(fw, sizes, l, lab + 1, n, 0);
        var b := CompileBranches(fw, sizes, l, lab + 1, n, 0);
        if tailElse.Some? {
          LayoutKeptNodes(fw, sizes, b.layout, b.lab, tailElse.value.nodes, 0);
        }
      case ForNode(_, _, _, block) => LayoutKeptNodes(fw, sizes, l, lab, block.nodes, 0);
      case _ =>
    }
  }

  lemma {:induction false} LayoutKeptBranches(fw: FloatWord, sizes: Sizes, l: Layout, lab: nat, n: Node, i: nat)
    requires Laid(l) && n.IfNode?
    ensures var m := CompileBranches(fw, sizes, l, lab, n, i).layout; Laid(m) && Extends(l, m)
    decreases n, 0, |n.branches| - i
  {
    if i < |n.branches| {
      LayoutKeptNodes(fw, sizes, l, lab, n.branches[i].block.nodes, 0);
      var a := CompileNodes(fw, sizes, l, lab, n.branches[i].block.nodes, 0);
      LayoutKeptBranches(fw, sizes, a.layout, a.lab, n, i + 1);
    }
  }

  lemma {:induction false} LayoutKeptNodes(fw: FloatWord, sizes: Sizes, l: Layout, lab: nat, nodes: seq<Node>, i: nat)
    requires Laid(l)
    ensures var m := CompileNodes(fw, sizes, l, lab, nodes, i).layout; Laid(m) && Extends(l, m)
    decreases nodes, 0, |nodes| - i
  {
    if i < |nodes| {
      LayoutKept(fw, sizes, l, lab, nodes[i]);
      var a := CompileNode(fw, sizes, l, lab, nodes[i]);
      LayoutKeptNodes(fw, sizes, a.layout, a.lab, nodes, i + 1);
    }
  }

  // ----- the meaning of a block -----

  predicate PrintsOne(e: Expr) {
    e.Funcall? && |e.exprs| == 2 && CalleeName(e) == "print" && Arithmetic(e.exprs[1])
  }

  /** Statements without an `if`: a loop's header is not compiled, and neither are `return`,
      `func` and `type` inside a function. */
  predicate Straight(n: Node) {
    match n
    case AsgnNode(a) => Arithmetic(a.expr)
    case ExprNode(e) => Arithmetic(e) || PrintsOne(e)
    case IfNode(_, _) => false
    case ForNode(_, _, _, block) => forall k :: 0 <= k < |block.nodes| ==> Straight(block.nodes[k])
    case _ => true
  }

  /** The last value assigned to each name, and the printed lines. */
  datatype World = World(vals: map<string, i32>, console: seq<Line>)

  /** The value of an expression: as written, or as compiled. */
  function Value(written: bool, e: Expr): Option<i32>
    requires Arithmetic(e)
  {
    if written then RefValue(e) else CodeValue(e)
  }

  /** What a statement means. A loop means its body, once. */
  function Meaning(written: bool, n: Node, w: World): Option<World>
    requires Straight(n)
    decreases n, 1
  {
    match n
    case AsgnNode(a) =>
      var v :- Value(written, a.expr);
      Some(w.(vals := w.vals[a.name := v]))
    case ExprNode(e) =>
      if Arithmetic(e) then
        var _ :- Value(written, e);
        Some(w)
      else
        var v :- Value(written, e.exprs[1]);
        Some(w.(console := w.console + [LineI32(v)]))
    case ForNode(_, _, _, block) => BlockMeaning(written, block.nodes, 0, w)
    case _ => Some(w)
  }

  /** The statements from the `i`-th on. */
  function BlockMeaning(written: bool, nodes: seq<Node>, i: nat, w: World): Option<World>
    requires forall k :: 0 <= k < |nodes| ==> Straight(nodes[k])
    decreases nodes, 0, |nodes| - i
  {
    if i >= |nodes| then Some(w) else
      var v :- Meaning(written, nodes[i], w);
      BlockMeaning(written, nodes, i + 1, v)
  }

  /** The bytes a statement needs, from the bottom of its frame. */
  function NodeRoom(fw: FloatWord, sizes: Sizes, l: Layout, lab: nat, n: Node): (r: nat)
    ensures r >= l.top
    decreases n, 1
  {
    match n
    case AsgnNode(a) => AsgnRoom(l, a)
    case ExprNode(e) => l.top + Extent(e)
    case ForNode(_, _, _, block) => BlockRoom(fw, sizes, l, lab, block.nodes, 0)
    case _ => l.top
  }

  function AsgnRoom(l: Layout, a: Assignment): nat {
    l.top + Max(Extent(a.expr), Mention(l, a.name).vars[a.name].size)
  }

  function BlockRoom(fw: FloatWord, sizes: Sizes, l: Layout, lab: nat, nodes: seq<Node>, i: nat): (r: nat)
    ensures r >= l.top
    decreases nodes, 0, |nodes| - i
  {
    if i >= |nodes| then l.top else
      var a := CompileNode(fw, sizes, l, lab, nodes[i]);
      Max(NodeRoom(fw, sizes, l, lab, nodes[i]), BlockRoom(fw, sizes, a.layout, a.lab, nodes, i + 1))
  }

  /** The machine holds what the source says: every variable of four bytes that has been
      assigned has its last value in its slot, and the console is the printed lines. */
  ghost predicate Holds(s: State, l: Layout, w: World) {
    && s.console == w.console
    && (forall x :: x in w.vals ==> x in l.vars)
    && (forall x :: x in w.vals && l.vars[x].size == 4 ==>
          && s.top + l.vars[x].address + 4 <= |s.stack|
          && Signed(Get32(s.stack, s.top + l.vars[x].address)) == w.vals[x])
  }

  /** `len` instructions from `s` on lead to `t`, which differs in the program counter, the
      console and the `n` bytes of the frame. */
  ghost predicate Leads(p: Program, s: State, len: nat, t: State, n: nat) {
    && Exec(p, s, len) == Some(t)
    && s.pc + len < TWO_64
    && t == s.(pc := s.pc + len, stack := t.stack, console := t.console)
    && SameOutside(s.stack, t.stack, s.top, s.top + n)
  }

  ghost predicate Keeps(p: Program, s: State, len: nat, n: nat, l: Layout, w: Option<World>) {
    match w
    case None => Exec(p, s, len) == None
    case Some(v) =>
      && Exec(p, s, len).Some? && Leads(p, s, len, Exec(p, s, len).value, n)
      && Holds(Exec(p, s, len).value, l, v)
  }

  lemma LeadsOn(p: Program, s: State, a: nat, t: State, b: nat, n: nat, l: Layout, w: Option<World>)
    requires Leads(p, s, a, t, n) && Keeps(p, t, b, n, l, w)
    ensures Keeps(p, s, a + b, n, l, w)
  {
    hide Exec, Holds;
    ExecAdd(p, s, a, b);
  }

  lemma KeepsMore(p: Program, s: State, len: nat, m: nat, n: nat, l: Layout, w: Option<World>)
    requires Keeps(p, s, len, m, l, w) && m <= n
    ensures Keeps(p, s, len, n, l, w)
  {
    hide Exec, Holds;
  }

  // ----- single statements -----

  lemma MoveRuns(p: Program, s: State, dst: nat, from: nat)
    requires Ready(s, dst, 1) && Ready(s, from, 1) && CodeAt(p, s.pc, [MoveAt(dst, from)])
    ensures Exec(p, s, 1) == Some(s.(pc := s.pc + 1, stack := s.stack[s.top + dst := s.stack[s.top + from]]))
  {
    hide Slot, Base;
    TopSlot(s, dst, 1);
    TopSlot(s, from, 1);
    assert p.code[s.pc] == p.code[s.pc..s.pc + 1][0];
    assert Exec(p, Step(p, s).value, 0) == Step(p, s);
  }

  lemma {:induction false} MovesRun(p: Program, s: State, dst: nat, from: nat, len: nat)
    requires dst + len <= from && Ready(s, from, len) && CodeAt(p, s.pc, Moves(dst, from, len))
    ensures Exec(p, s, len).Some?
    ensures var t := Exec(p, s, len).value;
            && t == s.(pc := s.pc + len, stack := t.stack)
            && SameOutside(s.stack, t.stack, s.top + dst, s.top + dst + len)
            && Copied(s.stack, s.top + from, t.stack, s.top + dst, len)
    decreases len
  {
    hide Step, Base;
    if len > 0 {
      var front, last := Moves(dst, from, len - 1), [MoveAt(dst + (len - 1), from + (len - 1))];
      CodeAtSplit(p, s.pc, front, last);
      MovesRun(p, s, dst, from, len - 1);
      ExecAdd(p, s, len - 1, 1);
      MoveRuns(p, Exec(p, s, len - 1).value, dst + (len - 1), from + (len - 1));
    }
  }

  /** A change of bytes that misses every variable leaves the machine's values alone. */
  lemma HoldsStill(s: State, t: State, l: Layout, w: World)
    requires Holds(s, l, w) && t.top == s.top && t.console == s.console && |t.stack| == |s.stack|
    requires forall x :: x in w.vals && l.vars[x].size == 4 ==>
               SameBytes(s.stack, t.stack, s.top + l.vars[x].address, s.top + l.vars[x].address + 4)
    ensures Holds(t, l, w)
  {
    hide Get32;
    forall x | x in w.vals && l.vars[x].size == 4
      ensures Get32(t.stack, s.top + l.vars[x].address) == Get32(s.stack, s.top + l.vars[x].address)
    {
      Word32Copied(s.stack, s.top + l.vars[x].address, t.stack, s.top + l.vars[x].address);
    }
  }

  /** Scratch use above the variables leaves them alone. */
  lemma HoldsBelow(s: State, t: State, l: Layout, w: World, n: nat)
    requires Laid(l) && Holds(s, l, w) && t.top == s.top && t.console == s.console
    requires SameOutside(s.stack, t.stack, s.top + l.top, s.top + n)
    ensures Holds(t, l, w)
  {
    hide Get32;
    HoldsStill(s, t, l, w);
  }

  lemma AsgnRuns(fw: FloatWord, sizes: Sizes, p: Program, s: State, l: Layout, lab: nat, a: Assignment, w: World)
    requires Arithmetic(a.expr) && Laid(l) && Holds(s, l, w)
    requires Ready(s, 0, AsgnRoom(l, a))
    requires CodeAt(p, s.pc, CompileNode(fw, sizes, l, lab, AsgnNode(a)).code)
    ensures var out := CompileNode(fw, sizes, l, lab, AsgnNode(a));
            Keeps(p, s, |out.code|, AsgnRoom(l, a), out.layout, Meaning(false, AsgnNode(a), w))
  {
    hide Exec, Get32, CompileExpr, CodeValue, Arithmetic, Moves, Extent, Holds, Copied;
    var k := Mention(l, a.name);
    var info, room := k.vars[a.name], AsgnRoom(l, a);
    var first, rest := CompileExpr(fw, a.expr, l.top), Moves(info.address, l.top, info.size);
    CodeAtSplit(p, s.pc, first, rest);
    ExprRuns(fw, p, s, a.expr, l.top);
    ExecAdd(p, s, |first|, |rest|);
    if CodeValue(a.expr).Some? {
      var v, t := CodeValue(a.expr).value, Exec(p, s, |first|).value;
      HoldsBelow(s, t, l, w, room);
      MovesKeep(p, t, l, a.name, w, v, room);
      LeadsOn(p, s, |first|, t, |rest|, room, k, Some(w.(vals := w.vals[a.name := v])));
    }
  }

  /** The moves of an assignment, the value being in the slot above the variables. */
  lemma MovesKeep(p: Program, t: State, l: Layout, name: string, w: World, v: i32, room: nat)
    requires Laid(l) && Holds(t, l, w) && Ready(t, 0, room)
    requires var info := Mention(l, name).vars[name];
             CodeAt(p, t.pc, Moves(info.address, l.top, info.size)) && room >= l.top + Max(4, info.size)
    requires Signed(Get32(t.stack, t.top + l.top)) == v
    ensures Keeps(p, t, Mention(l, name).vars[name].size, room, Mention(l, name), Some(w.(vals := w.vals[name := v])))
  {
    hide Exec, Get32, Moves, Holds, Copied;
    var info := Mention(l, name).vars[name];
    MovesRun(p, t, info.address, l.top, info.size);
    AsgnHolds(t, Exec(p, t, info.size).value, l, name, w, v);
  }

  /** `u` is `t` after the moves of an assignment to `name`. */
  ghost predicate Moved(t: State, u: State, l: Layout, name: string) {
    var info := Mention(l, name).vars[name];
    && u == t.(pc := u.pc, stack := u.stack)
    && t.top + l.top + Max(4, info.size) <= |t.stack| == |u.stack|
    && info.address + info.size <= l.top
    && SameOutside(t.stack, u.stack, t.top + info.address, t.top + info.address + info.size)
    && Copied(t.stack, t.top + l.top, u.stack, t.top + info.address, info.size)
  }

  /** After the moves: the assigned variable has its value, the others theirs. */
  lemma AsgnHolds(t: State, u: State, l: Layout, name: string, w: World, v: i32)
    requires Laid(l) && Holds(t, l, w) && Moved(t, u, l, name)
    requires Signed(Get32(t.stack, t.top + l.top)) == v
    ensures Holds(u, Mention(l, name), w.(vals := w.vals[name := v]))
  {
    hide Get32, Laid, SameOutside, Copied;
    var m := Mention(l, name);
    forall x | x in w.vals && x != name && m.vars[x].size == 4
      ensures Get32(u.stack, t.top + m.vars[x].address) == Get32(t.stack, t.top + m.vars[x].address)
    {
      OtherKept(t, u, l, name, x);
    }
    if m.vars[name].size == 4 {
      Word32Copied(t.stack, t.top + l.top, u.stack, t.top + m.vars[name].address);
    }
  }

  lemma OtherKept(t: State, u: State, l: Layout, name: string, x: string)
    requires Laid(l) && Moved(t, u, l, name)
    requires x in l.vars && x != name && l.vars[x].size == 4
    ensures t.top + l.vars[x].address + 4 <= |t.stack|
    ensures Get32(u.stack, t.top + l.vars[x].address) == Get32(t.stack, t.top + l.vars[x].address)
  {
    hide Get32;
    assert name in l.vars ==> Apart(l.vars[x], l.vars[name]);
    Word32Copied(t.stack, t.top + l.vars[x].address, u.stack, t.top + l.vars[x].address);
  }

  lemma ExprNodeRuns(fw: FloatWord, sizes: Sizes, p: Program, s: State, l: Layout, lab: nat, e: Expr, w: World)
    requires Arithmetic(e) && Laid(l) && Holds(s, l, w)
    requires Ready(s, 0, l.top + Extent(e)) && CodeAt(p, s.pc, CompileExpr(fw, e, l.top))
    ensures Keeps(p, s, |CompileExpr(fw, e, l.top)|, l.top + Extent(e), l, Meaning(false, ExprNode(e), w))
  {
    hide Exec, Get32, CompileExpr, CodeValue, Arithmetic, Extent;
    ExprRuns(fw, p, s, e, l.top);
    if CodeValue(e).Some? {
      HoldsBelow(s, Exec(p, s, |CompileExpr(fw, e, l.top)|).value, l, w, l.top + Extent(e));
    }
  }

  lemma PrintCode(fw: FloatWord, e: Expr, o: nat)
    requires PrintsOne(e)
    ensures !Arithmetic(e) && Extent(e) == Extent(e.exprs[1])
    ensures CompileExpr(fw, e, o) ==
            CompileExpr(fw, e.exprs[1], o) + [Instruction(Call, SC_PRINT_I32, Base(STACK_TOP, o), 0)]
  {
    hide Base;
    assert CompileArgs(fw, e, 2, o) == [];
    assert MaxExtent(e, 2) == 4;
  }

  lemma PrintNodeRuns(fw: FloatWord, sizes: Sizes, p: Program, s: State, l: Layout, lab: nat, e: Expr, w: World)
    requires PrintsOne(e) && Laid(l) && Holds(s, l, w)
    requires Ready(s, 0, l.top + Extent(e)) && CodeAt(p, s.pc, CompileExpr(fw, e, l.top))
    ensures Keeps(p, s, |CompileExpr(fw, e, l.top)|, l.top + Extent(e), l, Meaning(false, ExprNode(e), w))
  {
    hide Exec, Get32, CompileExpr, CodeValue, Arithmetic, Extent, Base, CalleeName, ArithI32;
    var x := e.exprs[1];
    PrintCode(fw, e, l.top);
    var first, rest := CompileExpr(fw, x, l.top), [Instruction(Call, SC_PRINT_I32, Base(STACK_TOP, l.top), 0)];
    CodeAtSplit(p, s.pc, first, rest);
    ExprRuns(fw, p, s, x, l.top);
    ExecAdd(p, s, |first|, 1);
    if CodeValue(x).Some? {
      var t := Exec(p, s, |first|).value;
      HoldsBelow(s, t, l, w, l.top + Extent(e));
      PrintRuns(p, t, l.top);
    }
  }

  lemma {:induction false} NodeRuns(
      fw: FloatWord, sizes: Sizes, p: Program, s: State, l: Layout, lab: nat, n: Node, w: World)
    requires Straight(n) && Laid(l) && Holds(s, l, w) && Ready(s, 0, NodeRoom(fw, sizes, l, lab, n))
    requires CodeAt(p, s.pc, CompileNode(fw, sizes, l, lab, n).code)
    ensures var out := CompileNode(fw, sizes, l, lab, n);
            Keeps(p, s, |out.code|, NodeRoom(fw, sizes, l, lab, n), out.layout, Meaning(false, n, w))
    decreases n, 1
  {
    hide Exec, CompileExpr, CodeValue, Arithmetic, Extent, PrintsOne, Get32, Holds, Laid;
    match n {
      case AsgnNode(a) => AsgnRuns(fw, sizes, p, s, l, lab, a, w);
      case ExprNode(e) =>
        if Arithmetic(e) {
          ExprNodeRuns(fw, sizes, p, s, l, lab, e, w);
        } else {
          PrintNodeRuns(fw, sizes, p, s, l, lab, e, w);
        }
      case ForNode(_, _, _, block) => BlockRuns(fw, sizes, p, s, l, lab, block.nodes, 0, w);
      case _ => QuietRuns(fw, sizes, p, s, l, lab, n, w);
    }
  }

  /** Statements without code: a declaration, and what a function does not compile. */
  lemma QuietRuns(fw: FloatWord, sizes: Sizes, p: Program, s: State, l: Layout, lab: nat, n: Node, w: World)
    requires n.DeclNode? || n.FuncNode? || n.ReturnNode? || n.TypedefNode?
    requires Holds(s, l, w) && Ready(s, 0, l.top) && s.pc <= |p.code|
    ensures CompileNode(fw, sizes, l, lab, n).code == []
    ensures Keeps(p, s, 0, l.top, CompileNode(fw, sizes, l, lab, n).layout, Some(w))
  {
    hide Get32, Holds, Declare, Exec;
    NoTicks(p, s);
    if n.DeclNode? {
      DeclHolds(s, sizes, l, n.decl, w);
    }
  }

  lemma DeclHolds(s: State, sizes: Sizes, l: Layout, d: Declaration, w: World)
    requires Holds(s, l, w)
    ensures Holds(s, Declare(sizes, l, d), w)
  {
    hide Get32;
  }

  /** Semantics preservation: running the code of a straight block for exactly its
      length leaves every assigned variable of four bytes holding its last value and the
      console showing exactly the printed values in order, and writes only in the block's
      frame; it has no defined result exactly when some expression has none. */
  lemma {:induction false} BlockRuns(
      fw: FloatWord, sizes: Sizes, p: Program, s: State, l: Layout, lab: nat, nodes: seq<Node>, i: nat, w: World)
    requires forall k :: 0 <= k < |nodes| ==> Straight(nodes[k])
    requires Laid(l) && Holds(s, l, w) && Ready(s, 0, BlockRoom(fw, sizes, l, lab, nodes, i))
    requires CodeAt(p, s.pc, CompileNodes(fw, sizes, l, lab, nodes, i).code)
    ensures var out := CompileNodes(fw, sizes, l, lab, nodes, i);
            Keeps(p, s, |out.code|, BlockRoom(fw, sizes, l, lab, nodes, i), out.layout,
                  BlockMeaning(false, nodes, i, w))
    decreases nodes, 0, |nodes| - i
  {
    hide Exec, Straight, Laid, Meaning, CompileNode, Holds, NodeRoom;
    if i >= |nodes| {
      NoTicks(p, s);
    } else {
      var n, room := nodes[i], BlockRoom(fw, sizes, l, lab, nodes, i);
      var a := CompileNode(fw, sizes, l, lab, n);
      var b := CompileNodes(fw, sizes, a.layout, a.lab, nodes, i + 1);
      CodeAtSplit(p, s.pc, a.code, b.code);
      LayoutKept(fw, sizes, l, lab, n);
      NodeRuns(fw, sizes, p, s, l, lab, n, w);
      if Meaning(false, n, w).None? {
        ThenNothing(p, s, |a.code|, |b.code|);
      } else {
        var t := Exec(p, s, |a.code|).value;
        KeepsMore(p, s, |a.code|, NodeRoom(fw, sizes, l, lab, n), room, a.layout, Meaning(false, n, w));
        BlockRuns(fw, sizes, p, t, a.layout, a.lab, nodes, i + 1, Meaning(false, n, w).value);
        KeepsMore(p, t, |b.code|, BlockRoom(fw, sizes, a.layout, a.lab, nodes, i + 1), room, b.layout,
                  BlockMeaning(false, nodes, i, w));
        LeadsOn(p, s, |a.code|, t, |b.code|, room, b.layout, BlockMeaning(false, nodes, i, w));
      }
    }
  }

  // ----- one compiled function -----

  /** What the first statement that enters `x` in the variable map records as its size: a
      declaration of a known type its type's size, an assignment zero. */
  function NodeSize(sizes: Sizes, n: Node, x: string): Option<nat>
    decreases n, 1
  {
    match n
    case DeclNode(d) =>
      if d.name == x && TypeName(d.varType) in sizes then Some(sizes[TypeName(d.varType)]) else None
    case AsgnNode(a) => if a.name == x then Some(0) else None
    case ForNode(_, _, _, block) => FirstSize(sizes, block.nodes, 0, x)
    case _ => None
  }

  function FirstSize(sizes: Sizes, nodes: seq<Node>, i: nat, x: string): Option<nat>
    decreases nodes, 0, |nodes| - i
  {
    if i >= |nodes| then None else
      match NodeSize(sizes, nodes[i], x)
      case Some(n) => Some(n)
      case None => FirstSize(sizes, nodes, i + 1, x)
  }

  /** `x` is in the map with this size, or not in the map. */
  ghost predicate Recorded(l: Layout, x: string, size: Option<nat>) {
    (x in l.vars <==> size.Some?) && (x in l.vars ==> l.vars[x].size == size.value)
  }

  /** The first mention decides for the whole function. So a variable assigned before its
      declaration has no bytes, and no later declaration or assignment gives it any. */
  lemma {:induction false} FirstMentionDecides(
      fw: FloatWord, sizes: Sizes, l: Layout, lab: nat, nodes: seq<Node>, i: nat, x: string)
    requires forall k :: 0 <= k < |nodes| ==> Straight(nodes[k])
    requires Laid(l) && x !in l.vars
    ensures Recorded(CompileNodes(fw, sizes, l, lab, nodes, i).layout, x, FirstSize(sizes, nodes, i, x))
    decreases nodes, 0, |nodes| - i
  {
    hide Laid, Straight, CompileNode, NodeSize;
    if i < |nodes| {
      var a := CompileNode(fw, sizes, l, lab, nodes[i]);
      LayoutKept(fw, sizes, l, lab, nodes[i]);
      MentionDecides(fw, sizes, l, lab, nodes[i], x);
      if x in a.layout.vars {
        LayoutKeptNodes(fw, sizes, a.layout, a.lab, nodes, i + 1);
      } else {
        FirstMentionDecides(fw, sizes, a.layout, a.lab, nodes, i + 1, x);
      }
    }
  }

  lemma {:induction false} MentionDecides(fw: FloatWord, sizes: Sizes, l: Layout, lab: nat, n: Node, x: string)
    requires Straight(n) && Laid(l) && x !in l.vars
    ensures Recorded(CompileNode(fw, sizes, l, lab, n).layout, x, NodeSize(sizes, n, x))
    decreases n, 1
  {
    hide Laid, Arithmetic, CompileExpr, Moves;
    if n.ForNode? {
      FirstMentionDecides(fw, sizes, l, lab, n.block.nodes, 0, x);
    }
  }

  /** `x = e`, then a declaration of `x` with a type of four bytes, then anything straight: the
      variable has a slot of no bytes, so no assignment to it stores anything. */
  lemma LostVariable(fw: FloatWord, sizes: Sizes, x: string, e: Expr, d: Declaration, more: seq<Node>)
    requires Arithmetic(e) && d.name == x && TypeName(d.varType) in sizes && sizes[TypeName(d.varType)] == 4
    requires forall k :: 0 <= k < |more| ==> Straight(more[k])
    ensures var nodes := [AsgnNode(Assignment(x, e)), DeclNode(d)] + more;
            var m := CompileNodes(fw, sizes, EMPTY_LAYOUT, 1, nodes, 0).layout;
            x in m.vars && m.vars[x].size == 0
  {
    hide Arithmetic, CompileNodes, Laid;
    var nodes := [AsgnNode(Assignment(x, e)), DeclNode(d)] + more;
    assert FirstSize(sizes, nodes, 0, x) == Some(0);
    assert Laid(EMPTY_LAYOUT) by { EmptyLaid(); }
    FirstMentionDecides(fw, sizes, EMPTY_LAYOUT, 1, nodes, 0, x);
  }

  lemma EmptyLaid()
    ensures Laid(EMPTY_LAYOUT)
  {
  }

  const NOTHING_YET: World := World(map[], [])

  /** Running a compiled straight function from a fresh machine: exactly its printed
      lines are on the console, and every variable whose first mention is the declaration
      of a four-byte type holds its last assigned value at its recorded address. */
  lemma CompiledFunction(fw: FloatWord, sizes: Sizes, nodes: seq<Node>, p: Program)
    requires forall k :: 0 <= k < |nodes| ==> Straight(nodes[k])
    requires p.code == CompileNodes(fw, sizes, EMPTY_LAYOUT, 1, nodes, 0).code
    requires BlockRoom(fw, sizes, EMPTY_LAYOUT, 1, nodes, 0) <= MAX_STACK
    ensures var r := Exec(p, Initial(0), |p.code|);
            match BlockMeaning(false, nodes, 0, NOTHING_YET)
            case None => r == None
            case Some(w) =>
              && r.Some? && r.value.pc == |p.code| && r.value.console == w.console
              && forall x :: x in w.vals && FirstSize(sizes, nodes, 0, x) == Some(4) ==>
                   VariableIs(r.value.stack, CompileNodes(fw, sizes, EMPTY_LAYOUT, 1, nodes, 0).layout, x, w.vals[x])
  {
    hide Exec, BlockMeaning, CompileNodes, FirstSize, BlockRoom;
    var s := Initial(0);
    BlockRuns(fw, sizes, p, s, EMPTY_LAYOUT, 1, nodes, 0, NOTHING_YET);
    forall x ensures
      var m := CompileNodes(fw, sizes, EMPTY_LAYOUT, 1, nodes, 0).layout;
      x in m.vars ==> FirstSize(sizes, nodes, 0, x) == Some(m.vars[x].size)
    {
      FirstMentionDecides(fw, sizes, EMPTY_LAYOUT, 1, nodes, 0, x);
    }
  }

  /** In a frame starting at byte 0, the recorded variable `x` has the value `v`. */
  ghost predicate VariableIs(m: Memory, l: Layout, x: string, v: i32) {
    x in l.vars && l.vars[x].address + 4 <= |m| && Signed(Get32(m, l.vars[x].address)) == v
  }

  predicate SymmetricNode(n: Node) {
    match n
    case AsgnNode(a) => Agreement.Symmetric(a.expr)
    case ExprNode(e) => Agreement.Symmetric(e)
    case ForNode(_, _, _, block) => forall k :: 0 <= k < |block.nodes| ==> SymmetricNode(block.nodes[k])
    case _ => true
  }

  /** A block whose expressions have no - or / between operands means as compiled what it
      means as written. */
  lemma {:induction false} SymmetricBlock(nodes: seq<Node>, i: nat, w: World)
    requires forall k :: 0 <= k < |nodes| ==> Straight(nodes[k]) && SymmetricNode(nodes[k])
    ensures BlockMeaning(false, nodes, i, w) == BlockMeaning(true, nodes, i, w)
    decreases nodes, 0, |nodes| - i
  {
    hide Straight, SymmetricNode, Meaning;
    if i < |nodes| {
      SymmetricMeaning(nodes[i], w);
      if Meaning(false, nodes[i], w).Some? {
        SymmetricBlock(nodes, i + 1, Meaning(false, nodes[i], w).value);
      }
    }
  }

  lemma {:induction false} SymmetricMeaning(n: Node, w: World)
    requires Straight(n) && SymmetricNode(n)
    ensures Meaning(false, n, w) == Meaning(true, n, w)
    decreases n, 1
  {
    hide Arithmetic, Agreement.Symmetric, CodeValue, RefValue;
    match n {
      case AsgnNode(a) => Agreement.SymmetricAgrees(a.expr);
      case ExprNode(e) =>
        if Arithmetic(e) {
          Agreement.SymmetricAgrees(e);
        } else {
          SymmetricArgument(e);
          Agreement.SymmetricAgrees(e.exprs[1]);
        }
      case ForNode(_, _, _, block) => SymmetricBlock(block.nodes, 0, w);
      case _ =>
    }
  }

  lemma SymmetricArgument(e: Expr)
    requires PrintsOne(e) && Agreement.Symmetric(e)
    ensures Agreement.Symmetric(e.exprs[1])
  {
  }
}
