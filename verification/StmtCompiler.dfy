/** What the compiler emits for statements: the layout of a function's variables, the
    code of a block, and the code of a whole program. */
module StmtCompiler {
  import opened Wrappers
  import opened Words
  import opened Vm
  import opened Tokens
  import opened Ast
  import opened ExprCompiler

  datatype VarInfo = VarInfo(size: nat, address: nat)

  /** The stack top of the function being compiled and where its variables are. */
  datatype Layout = Layout(top: nat, vars: map<string, VarInfo>)

  /** The outcome of compiling a statement: its code, the layout after it, the errors it
      reports, and the next free label. */
  datatype Emitted = Emitted(code: seq<Instruction>, layout: Layout, errors: seq<string>, lab: nat)

  /** The sizes of the known types, by name. */
  type Sizes = map<string, nat>

  const LABEL: nat := 5

  function TypeName(t: VarType): string {
    if t.Named? then t.name else ""
  }

  function UnknownType(name: string): string {
    "type is not defined: " + name
  }

  /** A declaration reserves space for its type; a name that is already in the map keeps
      its entry. The initialiser is not compiled. */
  function Declare(sizes: Sizes, l: Layout, d: Declaration): Layout {
    var t := TypeName(d.varType);
    if t !in sizes then l
    else Layout(l.top + sizes[t], if d.name in l.vars then l.vars else l.vars[d.name := VarInfo(sizes[t], l.top)])
  }

  /** Looking an assigned name up adds it to the map: zero bytes at address 0. */
  function Mention(l: Layout, name: string): Layout {
    if name in l.vars then l else l.(vars := l.vars[name := VarInfo(0, 0)])
  }

  function Moves(dst: nat, from: nat, length: nat): (code: seq<Instruction>)
    ensures |code| == length
    decreases length
  {
    if length == 0 then [] else
      Moves(dst, from, length - 1) + [MoveAt(dst + (length - 1), from + (length - 1))]
  }

  function MoveAt(dst: nat, from: nat): Instruction {
    Instruction(Move, Base(STACK_TOP, dst), Base(STACK_TOP, from), 0)
  }

  function CompileNode(fw: FloatWord, sizes: Sizes, l: Layout, lab: nat, n: Node): Emitted
    decreases n, 1
  {
    match n
    case DeclNode(d) =>
      var t := TypeName(d.varType);
      Emitted([], Declare(sizes, l, d), if t in sizes then [] else [UnknownType(t)], lab)
    case AsgnNode(a) =>
      var k := Mention(l, a.name);
      var info := k.vars[a.name];
      Emitted(CompileExpr(fw, a.expr, l.top) + Moves(info.address, l.top, info.size), k, [], lab)
    case ExprNode(e) => Emitted(CompileExpr(fw, e, l.top), l, [], lab)
    case IfNode(branches, tailElse) =>
      var here := Base(LABEL, lab);
      var b := CompileBranches(fw, sizes, l, lab + 1, n, 0);
      var t := if tailElse.None? then Emitted([], b.layout, [], b.lab)
               else CompileNodes(fw, sizes, b.layout, b.lab, tailElse.value.nodes, 0);
      Emitted([Instruction(JumpEqI32, 0, 0, here)] + b.code + t.code + [Instruction(Label, here, 0, 0)],
              t.layout, b.errors + t.errors, t.lab)
    case ForNode(_, _, _, block) => CompileNodes(fw, sizes, l, lab, block.nodes, 0)
    case _ => Emitted([], l, [], lab)
  }

  function CompileBranches(fw: FloatWord, sizes: Sizes, l: Layout, lab: nat, n: Node, i: nat): Emitted
    requires n.IfNode?
    decreases n, 0, |n.branches| - i
  {
    if i >= |n.branches| then Emitted([], l, [], lab) else
      var a := CompileNodes(fw, sizes, l, lab, n.branches[i].block.nodes, 0);
      var b := CompileBranches(fw, sizes, a.layout, a.lab, n, i + 1);
      Emitted(a.code + b.code, b.layout, a.errors + b.errors, b.lab)
  }

  /** A block, from its `i`-th statement on. */
  function CompileNodes(fw: FloatWord, sizes: Sizes, l: Layout, lab: nat, nodes: seq<Node>, i: nat): Emitted
    decreases nodes, 0, |nodes| - i
  {
    if i >= |nodes| then Emitted([], l, [], lab) else
      var a := CompileNode(fw, sizes, l, lab, nodes[i]);
      var b := CompileNodes(fw, sizes, a.layout, a.lab, nodes, i + 1);
      Emitted(a.code + b.code, b.layout, a.errors + b.errors, b.lab)
  }

  const EMPTY_LAYOUT: Layout := Layout(0, map[])

  /** The whole program: the code of its functions one after the other, from the `i`-th
      top-level node on. */
  function CompileFuncs(fw: FloatWord, sizes: Sizes, lab: nat, nodes: seq<Node>, i: nat): Emitted
    decreases |nodes| - i
  {
    if i >= |nodes| then Emitted([], EMPTY_LAYOUT, [], lab)
    else if !nodes[i].FuncNode? then CompileFuncs(fw, sizes, lab, nodes, i + 1)
    else
      var a := CompileNodes(fw, sizes, EMPTY_LAYOUT, lab, nodes[i].block.nodes, 0);
      var b := CompileFuncs(fw, sizes, a.lab, nodes, i + 1);
      Emitted(a.code + b.code, b.layout, a.errors + b.errors, b.lab)
  }

  function Concat(codes: seq<seq<Instruction>>): seq<Instruction> {
    if codes == [] then [] else Concat(codes[..|codes| - 1]) + codes[|codes| - 1]
  }

  /** `all` is `code` and `errs` followed by what `rest` emits. */
  ghost predicate Follows(all: Emitted, code: seq<Instruction>, errs: seq<string>, rest: Emitted) {
    all.code == code + rest.code && all.errors == errs + rest.errors && all.layout == rest.layout && all.lab == rest.lab
  }

  lemma FollowsNext(all: Emitted, code: seq<Instruction>, errs: seq<string>, a: Emitted, rest: Emitted)
    requires Follows(all, code, errs, Emitted(a.code + rest.code, rest.layout, a.errors + rest.errors, rest.lab))
    ensures Follows(all, code + a.code, errs + a.errors, rest)
  {
    assert code + (a.code + rest.code) == code + a.code + rest.code;
    assert errs + (a.errors + rest.errors) == errs + a.errors + rest.errors;
  }
}
