/** The code of statements of any nesting: what it consists of, in which order, and the labels
    that the `if` statements put around it. */
module IfCode {
  import opened Wrappers
  import opened Words
  import opened Vm
  import opened Ast
  import opened ExprCompiler
  import opened StmtCompiler

  // ----- the statements that matter -----

  /** The declarations, assignments and expressions in a statement, in order: those of all
      branches and of the last else, and those of a loop's body. */
  function Leaves(n: Node): seq<Node>
    decreases n, 1
  {
    match n
    case DeclNode(_) => [n]
    case AsgnNode(_) => [n]
    case ExprNode(_) => [n]
    case IfNode(_, tailElse) =>
      BranchLeaves(n, 0) + (if tailElse.None? then [] else BlockLeaves(tailElse.value.nodes, 0))
    case ForNode(_, _, _, block) => BlockLeaves(block.nodes, 0)
    case _ => []
  }

  function BranchLeaves(n: Node, i: nat): seq<Node>
    requires n.IfNode?
    decreases n, 0, |n.branches| - i
  {
    if i >= |n.branches| then [] else BlockLeaves(n.branches[i].block.nodes, 0) + BranchLeaves(n, i + 1)
  }

  function BlockLeaves(nodes: seq<Node>, i: nat): seq<Node>
    decreases nodes, 0, |nodes| - i
  {
    if i >= |nodes| then [] else Leaves(nodes[i]) + BlockLeaves(nodes, i + 1)
  }

  /** What compiling statements one after the other emits. */
  function InOrder(fw: FloatWord, sizes: Sizes, l: Layout, nodes: seq<Node>): Emitted
    decreases |nodes|
  {
    if nodes == [] then Emitted([], l, [], 0) else
      var a := CompileNode(fw, sizes, l, 0, nodes[0]);
      var b := InOrder(fw, sizes, a.layout, nodes[1..]);
      Emitted(a.code + b.code, b.layout, a.errors + b.errors, 0)
  }

  /** The instructions that belong to an `if` itself. */
  predicate Marks(ins: Instruction) {
    ins.op == JumpEqI32 || ins.op == Label
  }

  /** Code without them. */
  function Erase(code: seq<Instruction>): seq<Instruction> {
    if code == [] then [] else (if Marks(code[0]) then [] else [code[0]]) + Erase(code[1..])
  }

  lemma {:induction false} EraseParts(a: seq<Instruction>, b: seq<Instruction>)
    ensures Erase(a + b) == Erase(a) + Erase(b)
  {
    if a == [] {
      assert a + b == b;
    } else {
      assert (a + b)[1..] == a[1..] + b;
      EraseParts(a[1..], b);
    }
  }

  predicate Unmarked(code: seq<Instruction>) {
    forall k :: 0 <= k < |code| ==> !Marks(code[k])
  }

  lemma {:induction false} ErasePlain(code: seq<Instruction>)
    requires Unmarked(code)
    ensures Erase(code) == code
  {
    if code != [] {
      ErasePlain(code[1..]);
      assert code == [code[0]] + code[1..];
    }
  }

  lemma {:induction false} ExprPlain(fw: FloatWord, e: Expr, o: nat)
    ensures Unmarked(CompileExpr(fw, e, o))
    decreases e, 1
  {
    match e {
      case Atom(_) =>
      case Ops(_, exprs) =>
        if exprs != [] {
          ExprPlain(fw, exprs[0], o);
          OpsPlain(fw, e, 0, o);
        }
      case Funcall(exprs) =>
        if exprs != [] {
          ArgsPlain(fw, e, 1, o);
        }
    }
  }

  lemma {:induction false} OpsPlain(fw: FloatWord, e: Expr, i: nat, o: nat)
    requires e.Ops?
    ensures Unmarked(CompileOps(fw, e, i, o))
    decreases e, 0, |e.ops| - i
  {
    if i < |e.ops| && i + 1 < |e.exprs| {
      ExprPlain(fw, e.exprs[i + 1], o + 4);
      OpsPlain(fw, e, i + 1, o);
    }
  }

  lemma {:induction false} ArgsPlain(fw: FloatWord, e: Expr, i: nat, o: nat)
    requires e.Funcall?
    ensures Unmarked(CompileArgs(fw, e, i, o))
    decreases e, 0, |e.exprs| - i
  {
    if i < |e.exprs| {
      ExprPlain(fw, e.exprs[i], o);
      ArgsPlain(fw, e, i + 1, o);
    }
  }

  lemma {:induction false} MovesPlain(dst: nat, from: nat, length: nat)
    ensures Unmarked(Moves(dst, from, length))
    decreases length
  {
    if length > 0 {
      MovesPlain(dst, from, length - 1);
    }
  }

  /** A statement that is a leaf emits no label and takes no label number. */
  lemma LeafPlain(fw: FloatWord, sizes: Sizes, l: Layout, lab: nat, n: Node)
    requires !n.IfNode? && !n.ForNode?
    ensures var a, b := CompileNode(fw, sizes, l, lab, n), CompileNode(fw, sizes, l, 0, n);
            && a == b.(lab := lab) && Unmarked(a.code)
            && (n.FuncNode? || n.ReturnNode? || n.TypedefNode? ==> a == Emitted([], l, [], lab))
  {
    hide CompileExpr, Moves;
    match n {
      case AsgnNode(a) =>
        ExprPlain(fw, a.expr, l.top);
        var info := Mention(l, a.name).vars[a.name];
        MovesPlain(info.address, l.top, info.size);
      case ExprNode(e) => ExprPlain(fw, e, l.top);
      case _ =>
    }
  }

  lemma InOrderNothing(fw: FloatWord, sizes: Sizes, l: Layout)
    ensures InOrder(fw, sizes, l, []) == Emitted([], l, [], 0)
  {
  }

  lemma InOrderLabel(fw: FloatWord, sizes: Sizes, l: Layout, nodes: seq<Node>)
    ensures InOrder(fw, sizes, l, nodes).lab == 0
  {
    hide CompileNode;
  }

  lemma InOrderNext(fw: FloatWord, sizes: Sizes, l: Layout, n: Node, more: seq<Node>)
    ensures var a := CompileNode(fw, sizes, l, 0, n);
            var b := InOrder(fw, sizes, a.layout, more);
            InOrder(fw, sizes, l, [n] + more) == Emitted(a.code + b.code, b.layout, a.errors + b.errors, 0)
  {
    hide CompileNode;
    assert ([n] + more)[1..] == more;
  }

  lemma {:induction false} InOrderParts(fw: FloatWord, sizes: Sizes, l: Layout, xs: seq<Node>, ys: seq<Node>)
    ensures var a := InOrder(fw, sizes, l, xs);
            var b := InOrder(fw, sizes, a.layout, ys);
            InOrder(fw, sizes, l, xs + ys) == Emitted(a.code + b.code, b.layout, a.errors + b.errors, 0)
    decreases |xs|
  {
    hide CompileNode, InOrder;
    if xs == [] {
      assert InOrder(fw, sizes, l, xs) == Emitted([], l, [], 0) by { InOrderNothing(fw, sizes, l); }
      var b := InOrder(fw, sizes, l, ys);
      assert b.lab == 0 by { InOrderLabel(fw, sizes, l, ys); }
      assert [] + b.code == b.code && [] + b.errors == b.errors;
      assert xs + ys == ys;
    } else {
      var first := CompileNode(fw, sizes, l, 0, xs[0]);
      InOrderParts(fw, sizes, first.layout, xs[1..], ys);
      var a := InOrder(fw, sizes, first.layout, xs[1..]);
      var b := InOrder(fw, sizes, a.layout, ys);
      InOrderNext(fw, sizes, l, xs[0], xs[1..] + ys);
      InOrderNext(fw, sizes, l, xs[0], xs[1..]);
      assert xs + ys == [xs[0]] + (xs[1..] + ys) && xs == [xs[0]] + xs[1..];
      assert first.code + (a.code + b.code) == first.code + a.code + b.code;
      assert first.errors + (a.errors + b.errors) == first.errors + a.errors + b.errors;
    }
  }

  /** `a` is the code of the leaves with instructions of `if`s in between. */
  ghost predicate Flattens(fw: FloatWord, sizes: Sizes, l: Layout, a: Emitted, leaves: seq<Node>) {
    var b := InOrder(fw, sizes, l, leaves);
    Erase(a.code) == b.code && a.layout == b.layout && a.errors == b.errors
  }

  lemma FlattenBoth(fw: FloatWord, sizes: Sizes, l: Layout, a: Emitted, xs: seq<Node>, b: Emitted, ys: seq<Node>)
    requires Flattens(fw, sizes, l, a, xs) && Flattens(fw, sizes, a.layout, b, ys)
    ensures Flattens(fw, sizes, l, Emitted(a.code + b.code, b.layout, a.errors + b.errors, b.lab), xs + ys)
  {
    hide InOrder, Erase;
    EraseParts(a.code, b.code);
    InOrderParts(fw, sizes, l, xs, ys);
  }

  lemma FlattenNothing(fw: FloatWord, sizes: Sizes, l: Layout, lab: nat)
    ensures Flattens(fw, sizes, l, Emitted([], l, [], lab), [])
  {
  }

  lemma FlattenMarked(
      fw: FloatWord, sizes: Sizes, l: Layout, a: Emitted, leaves: seq<Node>, i: Instruction, j: Instruction)
    requires Flattens(fw, sizes, l, a, leaves) && Marks(i) && Marks(j)
    ensures Flattens(fw, sizes, l, a.(code := [i] + a.code + [j]), leaves)
  {
    hide InOrder, Erase;
    EraseParts([i] + a.code, [j]);
    EraseParts([i], a.code);
    OneMark(i);
    OneMark(j);
  }

  lemma OneMark(ins: Instruction)
    requires Marks(ins)
    ensures Erase([ins]) == []
  {
    assert [ins][1..] == [];
  }

  lemma FlattenLeaf(fw: FloatWord, sizes: Sizes, l: Layout, lab: nat, n: Node)
    requires !n.IfNode? && !n.ForNode?
    ensures Flattens(fw, sizes, l, CompileNode(fw, sizes, l, lab, n), Leaves(n))
  {
    hide CompileNode;
    LeafPlain(fw, sizes, l, lab, n);
    var a := CompileNode(fw, sizes, l, 0, n);
    ErasePlain(a.code);
    if n.DeclNode? || n.AsgnNode? || n.ExprNode? {
      assert [n][1..] == [];
      assert InOrder(fw, sizes, a.layout, []) == Emitted([], a.layout, [], 0);
      assert InOrder(fw, sizes, l, [n]) == Emitted(a.code + [], a.layout, a.errors + [], 0);
    }
  }

  /** Whatever its nesting, a statement's code is that of its leaves, in order, with only the
      instructions of `if`s in between; its variables and its errors are theirs. */
  lemma {:induction false} NodeFlattens(fw: FloatWord, sizes: Sizes, l: Layout, lab: nat, n: Node)
    ensures Flattens(fw, sizes, l, CompileNode(fw, sizes, l, lab, n), Leaves(n))
    decreases n, 1
  {
    hide Flattens, CompileBranches, CompileNodes, Marks;
    match n {
      case IfNode(branches, tailElse) =>
        BranchesFlatten(fw, sizes, l, lab + 1, n, 0);
        var b := CompileBranches(fw, sizes, l, lab + 1, n, 0);
        var t := Emitted([], b.layout, [], b.lab);
        if tailElse.Some? {
          NodesFlatten(fw, sizes, b.layout, b.lab, tailElse.value.nodes, 0);
          t := CompileNodes(fw, sizes, b.layout, b.lab, tailElse.value.nodes, 0);
        } else {
          FlattenNothing(fw, sizes, b.layout, b.lab);
        }
        var both := Emitted(b.code + t.code, t.layout, b.errors + t.errors, t.lab);
        FlattenBoth(fw, sizes, l, b, BranchLeaves(n, 0), t,
                    if tailElse.None? then [] else BlockLeaves(tailElse.value.nodes, 0));
        var jump, here := IfJump(lab), IfLabel(lab);
        assert Marks(jump) && Marks(here) by { IfMarks(lab); }
        FlattenMarked(fw, sizes, l, both, Leaves(n), jump, here);
        assert [jump] + b.code + t.code + [here] == [jump] + (b.code + t.code) + [here];
      case ForNode(_, _, _, block) => NodesFlatten(fw, sizes, l, lab, block.nodes, 0);
      case _ => FlattenLeaf(fw, sizes, l, lab, n);
    }
  }

  function IfJump(lab: nat): Instruction {
    Instruction(JumpEqI32, 0, 0, Base(LABEL, lab))
  }

  function IfLabel(lab: nat): Instruction {
    Instruction(Label, Base(LABEL, lab), 0, 0)
  }

  lemma IfMarks(lab: nat)
    ensures Marks(IfJump(lab)) && Marks(IfLabel(lab))
  {
  }

  lemma {:induction false} BranchesFlatten(fw: FloatWord, sizes: Sizes, l: Layout, lab: nat, n: Node, i: nat)
    requires n.IfNode?
    ensures Flattens(fw, sizes, l, CompileBranches(fw, sizes, l, lab, n, i), BranchLeaves(n, i))
    decreases n, 0, |n.branches| - i
  {
    hide Flattens, CompileNodes;
    if i >= |n.branches| {
      FlattenNothing(fw, sizes, l, lab);
    } else {
      NodesFlatten(fw, sizes, l, lab, n.branches[i].block.nodes, 0);
      var a := CompileNodes(fw, sizes, l, lab, n.branches[i].block.nodes, 0);
      BranchesFlatten(fw, sizes, a.layout, a.lab, n, i + 1);
      FlattenBoth(fw, sizes, l, a, BlockLeaves(n.branches[i].block.nodes, 0),
                  CompileBranches(fw, sizes, a.layout, a.lab, n, i + 1), BranchLeaves(n, i + 1));
    }
  }

  lemma {:induction false} NodesFlatten(fw: FloatWord, sizes: Sizes, l: Layout, lab: nat, nodes: seq<Node>, i: nat)
    ensures Flattens(fw, sizes, l, CompileNodes(fw, sizes, l, lab, nodes, i), BlockLeaves(nodes, i))
    decreases nodes, 0, |nodes| - i
  {
    hide Flattens, CompileNode;
    if i >= |nodes| {
      FlattenNothing(fw, sizes, l, lab);
    } else {
      NodeFlattens(fw, sizes, l, lab, nodes[i]);
      var a := CompileNode(fw, sizes, l, lab, nodes[i]);
      NodesFlatten(fw, sizes, a.layout, a.lab, nodes, i + 1);
      FlattenBoth(fw, sizes, l, a, Leaves(nodes[i]),
                  CompileNodes(fw, sizes, a.layout, a.lab, nodes, i + 1), BlockLeaves(nodes, i + 1));
    }
  }

  // ----- errors and space -----

  /** The messages for declarations of unknown types. */
  function Unknown(sizes: Sizes, leaves: seq<Node>): seq<string> {
    if leaves == [] then [] else
      (if leaves[0].DeclNode? && TypeName(leaves[0].decl.varType) !in sizes
       then ["type is not defined: " + TypeName(leaves[0].decl.varType)] else [])
      + Unknown(sizes, leaves[1..])
  }

  /** The bytes of the declarations of known types, repeated ones included. */
  function Reserved(sizes: Sizes, leaves: seq<Node>): nat {
    if leaves == [] then 0 else
      (if leaves[0].DeclNode? && TypeName(leaves[0].decl.varType) in sizes
       then sizes[TypeName(leaves[0].decl.varType)] else 0)
      + Reserved(sizes, leaves[1..])
  }

  predicate AllLeaves(nodes: seq<Node>) {
    forall k :: 0 <= k < |nodes| ==> nodes[k].DeclNode? || nodes[k].AsgnNode? || nodes[k].ExprNode?
  }

  lemma {:induction false} LeavesReserve(fw: FloatWord, sizes: Sizes, l: Layout, nodes: seq<Node>)
    requires AllLeaves(nodes)
    ensures var a := InOrder(fw, sizes, l, nodes);
            a.errors == Unknown(sizes, nodes) && a.layout.top == l.top + Reserved(sizes, nodes)
    decreases |nodes|
  {
    hide CompileExpr, Moves;
    if nodes != [] {
      LeavesReserve(fw, sizes, CompileNode(fw, sizes, l, 0, nodes[0]).layout, nodes[1..]);
    }
  }

  lemma {:induction false} LeavesAreLeaves(nodes: seq<Node>, i: nat)
    ensures AllLeaves(BlockLeaves(nodes, i))
    decreases nodes, 0, |nodes| - i
  {
    if i < |nodes| {
      NodeLeavesAre(nodes[i]);
      LeavesAreLeaves(nodes, i + 1);
    }
  }

  lemma {:induction false} NodeLeavesAre(n: Node)
    ensures AllLeaves(Leaves(n))
    decreases n, 1
  {
    match n {
      case IfNode(_, tailElse) =>
        BranchLeavesAre(n, 0);
        if tailElse.Some? { LeavesAreLeaves(tailElse.value.nodes, 0); }
      case ForNode(_, _, _, block) => LeavesAreLeaves(block.nodes, 0);
      case _ =>
    }
  }

  lemma {:induction false} BranchLeavesAre(n: Node, i: nat)
    requires n.IfNode?
    ensures AllLeaves(BranchLeaves(n, i))
    decreases n, 0, |n.branches| - i
  {
    if i < |n.branches| {
      LeavesAreLeaves(n.branches[i].block.nodes, 0);
      BranchLeavesAre(n, i + 1);
    }
  }

  /** A function body reports each declaration of an unknown type, in order and nothing else,
      and its frame holds each declaration of a known one, repeated ones again. */
  lemma BodyReserves(fw: FloatWord, sizes: Sizes, l: Layout, lab: nat, nodes: seq<Node>)
    ensures var a := CompileNodes(fw, sizes, l, lab, nodes, 0);
            && a.errors == Unknown(sizes, BlockLeaves(nodes, 0))
            && a.layout.top == l.top + Reserved(sizes, BlockLeaves(nodes, 0))
  {
    NodesFlatten(fw, sizes, l, lab, nodes, 0);
    LeavesAreLeaves(nodes, 0);
    LeavesReserve(fw, sizes, l, BlockLeaves(nodes, 0));
  }

  /** A variable of a struct type that is written out in place has no type to look up: unless a
      typedef gives one the empty name, it is reported and gets no slot. */
  lemma StructInPlace(fw: FloatWord, sizes: Sizes, l: Layout, lab: nat, d: Declaration)
    requires d.varType.StructType? && "" !in sizes
    ensures CompileNode(fw, sizes, l, lab, DeclNode(d)) == Emitted([], l, ["type is not defined: "], lab)
  {
    assert UnknownType("") == "type is not defined: ";
  }

  /** The messages of a file: those of its functions, in order. */
  function FileUnknown(sizes: Sizes, file: seq<Node>, i: nat): seq<string>
    decreases |file| - i
  {
    if i >= |file| then [] else
      (if file[i].FuncNode? then Unknown(sizes, BlockLeaves(file[i].block.nodes, 0)) else [])
      + FileUnknown(sizes, file, i + 1)
  }

  lemma {:induction false} FileReports(fw: FloatWord, sizes: Sizes, lab: nat, file: seq<Node>, i: nat)
    ensures CompileFuncs(fw, sizes, lab, file, i).errors == FileUnknown(sizes, file, i)
    decreases |file| - i
  {
    hide CompileNodes, Unknown, BlockLeaves;
    if i < |file| {
      var next := lab;
      if file[i].FuncNode? {
        BodyReserves(fw, sizes, EMPTY_LAYOUT, lab, file[i].block.nodes);
        next := CompileNodes(fw, sizes, EMPTY_LAYOUT, lab, file[i].block.nodes, 0).lab;
      }
      FileReports(fw, sizes, next, file, i + 1);
    }
  }

  // ----- labels -----

  /** The label an instruction of an `if` names. */
  function NumberOf(ins: Instruction): int
    requires Marks(ins)
  {
    (if ins.op == Label then ins.arg0 else ins.arg2) - LABEL * TWO_56
  }

  predicate Names(ins: Instruction, k: int) {
    Marks(ins) && NumberOf(ins) == k
  }

  /** Exactly one jump and, behind it, exactly one label have this number. */
  ghost predicate Paired(code: seq<Instruction>, k: int) {
    exists i, j :: 0 <= i < j < |code| && PairedAt(code, k, i, j)
  }

  ghost predicate PairedAt(code: seq<Instruction>, k: int, i: nat, j: nat)
    requires i < j < |code|
  {
    && code[i].op == JumpEqI32 && Names(code[i], k) && code[j].op == Label && Names(code[j], k)
    && forall m :: 0 <= m < |code| && Names(code[m], k) ==> m == i || m == j
  }

  /** The labels from `lo` up to `hi` are each used by one `if`, and no others are used. */
  ghost predicate WellLabelled(code: seq<Instruction>, lo: nat, hi: nat) {
    && lo <= hi
    && (forall m :: 0 <= m < |code| && Marks(code[m]) ==> lo <= NumberOf(code[m]) < hi)
    && (forall k :: lo <= k < hi ==> Paired(code, k))
  }

  lemma PairedLeft(a: seq<Instruction>, b: seq<Instruction>, k: int)
    requires Paired(a, k) && forall m :: 0 <= m < |b| ==> !Names(b[m], k)
    ensures Paired(a + b, k)
  {
    hide Names;
    var i, j :| 0 <= i < j < |a| && PairedAt(a, k, i, j);
    assert forall m :: |a| <= m < |a + b| ==> (a + b)[m] == b[m - |a|];
    assert PairedAt(a + b, k, i, j);
  }

  lemma PairedRight(a: seq<Instruction>, b: seq<Instruction>, k: int)
    requires Paired(b, k) && forall m :: 0 <= m < |a| ==> !Names(a[m], k)
    ensures Paired(a + b, k)
  {
    hide Names;
    var i, j :| 0 <= i < j < |b| && PairedAt(b, k, i, j);
    assert forall m :: |a| <= m < |a + b| ==> (a + b)[m] == b[m - |a|];
    assert PairedAt(a + b, k, |a| + i, |a| + j);
  }

  lemma LabelledBoth(a: seq<Instruction>, lo: nat, mid: nat, b: seq<Instruction>, hi: nat)
    requires WellLabelled(a, lo, mid) && WellLabelled(b, mid, hi)
    ensures WellLabelled(a + b, lo, hi)
  {
    hide Marks, NumberOf, Paired;
    forall m | 0 <= m < |a + b| && Marks((a + b)[m]) ensures lo <= NumberOf((a + b)[m]) < hi {
      assert (a + b)[m] == if m < |a| then a[m] else b[m - |a|];
    }
    forall k | lo <= k < hi ensures Paired(a + b, k) {
      if k < mid { PairedLeft(a, b, k); } else { PairedRight(a, b, k); }
    }
  }

  lemma LabelledPlain(code: seq<Instruction>, lab: nat)
    requires Unmarked(code)
    ensures WellLabelled(code, lab, lab)
  {
  }

  /** An `if` with its own label around code that uses later ones. */
  lemma LabelledIf(code: seq<Instruction>, lab: nat, hi: nat)
    requires WellLabelled(code, lab + 1, hi) && hi <= TWO_56
    ensures WellLabelled([IfJump(lab)] + code + [IfLabel(lab)], lab, hi)
  {
    hide Base, Paired;
    var all := [IfJump(lab)] + code + [IfLabel(lab)];
    IfNames(lab);
    assert forall m :: 1 <= m <= |code| ==> all[m] == code[m - 1];
    assert Paired(all, lab) by {
      assert PairedAt(all, lab, 0, |code| + 1);
      PairIs(all, lab, 0, |code| + 1);
    }
    forall k | lab + 1 <= k < hi ensures Paired(all, k) {
      PairedRight([IfJump(lab)], code, k);
      PairedLeft([IfJump(lab)] + code, [IfLabel(lab)], k);
    }
  }

  lemma PairIs(code: seq<Instruction>, k: int, i: nat, j: nat)
    requires i < j < |code| && PairedAt(code, k, i, j)
    ensures Paired(code, k)
  {
  }

  lemma IfNames(lab: nat)
    requires lab < TWO_56
    ensures Marks(IfJump(lab)) && NumberOf(IfJump(lab)) == lab && Marks(IfLabel(lab)) && NumberOf(IfLabel(lab)) == lab
  {
  }

  /** Labels are never used twice: every `if`, wherever it is nested, jumps to the one label
      with its number, which stands behind it. */
  lemma {:induction false} NodeLabelled(fw: FloatWord, sizes: Sizes, l: Layout, lab: nat, n: Node)
    requires CompileNode(fw, sizes, l, lab, n).lab <= TWO_56
    ensures var a := CompileNode(fw, sizes, l, lab, n); WellLabelled(a.code, lab, a.lab)
    decreases n, 1
  {
    hide CompileBranches, CompileNodes, WellLabelled, Base;
    match n {
      case IfNode(branches, tailElse) =>
        var b := CompileBranches(fw, sizes, l, lab + 1, n, 0);
        var t := Emitted([], b.layout, [], b.lab);
        if tailElse.Some? {
          t := CompileNodes(fw, sizes, b.layout, b.lab, tailElse.value.nodes, 0);
          LabelsGrow(fw, sizes, b.layout, b.lab, tailElse.value.nodes, 0);
          NodesLabelled(fw, sizes, b.layout, b.lab, tailElse.value.nodes, 0);
        } else {
          LabelledPlain([], b.lab);
        }
        BranchesLabelled(fw, sizes, l, lab + 1, n, 0);
        LabelledBoth(b.code, lab + 1, b.lab, t.code, t.lab);
        LabelledIf(b.code + t.code, lab, t.lab);
        assert [IfJump(lab)] + b.code + t.code + [IfLabel(lab)] == [IfJump(lab)] + (b.code + t.code) + [IfLabel(lab)];
      case ForNode(_, _, _, block) => NodesLabelled(fw, sizes, l, lab, block.nodes, 0);
      case _ =>
        LeafPlain(fw, sizes, l, lab, n);
        LabelledPlain(CompileNode(fw, sizes, l, lab, n).code, lab);
    }
  }

  lemma {:induction false} BranchesLabelled(fw: FloatWord, sizes: Sizes, l: Layout, lab: nat, n: Node, i: nat)
    requires n.IfNode? && CompileBranches(fw, sizes, l, lab, n, i).lab <= TWO_56
    ensures var a := CompileBranches(fw, sizes, l, lab, n, i); WellLabelled(a.code, lab, a.lab)
    decreases n, 0, |n.branches| - i
  {
    hide CompileNodes, WellLabelled;
    if i >= |n.branches| {
      LabelledPlain([], lab);
    } else {
      var a := CompileNodes(fw, sizes, l, lab, n.branches[i].block.nodes, 0);
      var b := CompileBranches(fw, sizes, a.layout, a.lab, n, i + 1);
      BranchLabelsGrow(fw, sizes, a.layout, a.lab, n, i + 1);
      NodesLabelled(fw, sizes, l, lab, n.branches[i].block.nodes, 0);
      BranchesLabelled(fw, sizes, a.layout, a.lab, n, i + 1);
      LabelledBoth(a.code, lab, a.lab, b.code, b.lab);
    }
  }

  lemma {:induction false} NodesLabelled(fw: FloatWord, sizes: Sizes, l: Layout, lab: nat, nodes: seq<Node>, i: nat)
    requires CompileNodes(fw, sizes, l, lab, nodes, i).lab <= TWO_56
    ensures var a := CompileNodes(fw, sizes, l, lab, nodes, i); WellLabelled(a.code, lab, a.lab)
    decreases nodes, 0, |nodes| - i
  {
    hide CompileNode, WellLabelled;
    if i >= |nodes| {
      LabelledPlain([], lab);
    } else {
      var a := CompileNode(fw, sizes, l, lab, nodes[i]);
      var b := CompileNodes(fw, sizes, a.layout, a.lab, nodes, i + 1);
      LabelsGrow(fw, sizes, a.layout, a.lab, nodes, i + 1);
      NodeLabelled(fw, sizes, l, lab, nodes[i]);
      NodesLabelled(fw, sizes, a.layout, a.lab, nodes, i + 1);
      LabelledBoth(a.code, lab, a.lab, b.code, b.lab);
    }
  }

  lemma {:induction false} LabelsGrow(fw: FloatWord, sizes: Sizes, l: Layout, lab: nat, nodes: seq<Node>, i: nat)
    ensures lab <= CompileNodes(fw, sizes, l, lab, nodes, i).lab
    decreases nodes, 0, |nodes| - i
  {
    hide CompileNode;
    if i < |nodes| {
      NodeLabelsGrow(fw, sizes, l, lab, nodes[i]);
      var a := CompileNode(fw, sizes, l, lab, nodes[i]);
      LabelsGrow(fw, sizes, a.layout, a.lab, nodes, i + 1);
    }
  }

  lemma {:induction false} BranchLabelsGrow(fw: FloatWord, sizes: Sizes, l: Layout, lab: nat, n: Node, i: nat)
    requires n.IfNode?
    ensures lab <= CompileBranches(fw, sizes, l, lab, n, i).lab
    decreases n, 0, |n.branches| - i
  {
    hide CompileNodes;
    if i < |n.branches| {
      LabelsGrow(fw, sizes, l, lab, n.branches[i].block.nodes, 0);
      var a := CompileNodes(fw, sizes, l, lab, n.branches[i].block.nodes, 0);
      BranchLabelsGrow(fw, sizes, a.layout, a.lab, n, i + 1);
    }
  }

  lemma {:induction false} NodeLabelsGrow(fw: FloatWord, sizes: Sizes, l: Layout, lab: nat, n: Node)
    ensures lab <= CompileNode(fw, sizes, l, lab, n).lab
    decreases n, 1
  {
    hide CompileBranches, CompileNodes, Base;
    match n {
      case IfNode(_, tailElse) =>
        BranchLabelsGrow(fw, sizes, l, lab + 1, n, 0);
        var b := CompileBranches(fw, sizes, l, lab + 1, n, 0);
        if tailElse.Some? { LabelsGrow(fw, sizes, b.layout, b.lab, tailElse.value.nodes, 0); }
      case ForNode(_, _, _, block) => LabelsGrow(fw, sizes, l, lab, block.nodes, 0);
      case _ =>
    }
  }

  /** The same over the linked functions of a file: labels are numbered through. */
  lemma {:induction false} FileLabelled(fw: FloatWord, sizes: Sizes, lab: nat, file: seq<Node>, i: nat)
    requires CompileFuncs(fw, sizes, lab, file, i).lab <= TWO_56
    ensures var a := CompileFuncs(fw, sizes, lab, file, i); WellLabelled(a.code, lab, a.lab)
    decreases |file| - i
  {
    hide CompileNodes, WellLabelled;
    if i >= |file| {
      LabelledPlain([], lab);
    } else if !file[i].FuncNode? {
      FileLabelled(fw, sizes, lab, file, i + 1);
    } else {
      var a := CompileNodes(fw, sizes, EMPTY_LAYOUT, lab, file[i].block.nodes, 0);
      var b := CompileFuncs(fw, sizes, a.lab, file, i + 1);
      FileLabelsGrow(fw, sizes, a.lab, file, i + 1);
      NodesLabelled(fw, sizes, EMPTY_LAYOUT, lab, file[i].block.nodes, 0);
      FileLabelled(fw, sizes, a.lab, file, i + 1);
      LabelledBoth(a.code, lab, a.lab, b.code, b.lab);
    }
  }

  lemma {:induction false} FileLabelsGrow(fw: FloatWord, sizes: Sizes, lab: nat, file: seq<Node>, i: nat)
    ensures lab <= CompileFuncs(fw, sizes, lab, file, i).lab
    decreases |file| - i
  {
    hide CompileNodes;
    if i < |file| {
      if file[i].FuncNode? {
        LabelsGrow(fw, sizes, EMPTY_LAYOUT, lab, file[i].block.nodes, 0);
        FileLabelsGrow(fw, sizes, CompileNodes(fw, sizes, EMPTY_LAYOUT, lab, file[i].block.nodes, 0).lab, file, i + 1);
      } else {
        FileLabelsGrow(fw, sizes, lab, file, i + 1);
      }
    }
  }

  /** The code of an `if`: the jump to its label, the blocks of its branches and of its last
      else, each compiled where the one before it stopped, and the label. No condition is
      compiled. */
  lemma IfBrackets(fw: FloatWord, sizes: Sizes, l: Layout, lab: nat, n: Node)
    requires n.IfNode? && CompileNode(fw, sizes, l, lab, n).lab <= TWO_56
    ensures var code := CompileNode(fw, sizes, l, lab, n).code;
            && |code| >= 2 && PairedAt(code, lab, 0, |code| - 1)
            && Erase(code[1..|code| - 1]) == InOrder(fw, sizes, l, Leaves(n)).code
  {
    hide CompileBranches, CompileNodes, WellLabelled, Base, InOrder, Erase, Paired, PairedAt;
    var a := CompileNode(fw, sizes, l, lab, n);
    NodeFlattens(fw, sizes, l, lab, n);
    NodeLabelled(fw, sizes, l, lab, n);
    NodeLabelsGrow(fw, sizes, l, lab, n);
    IfEnds(fw, sizes, l, lab, n);
    EraseParts([IfJump(lab)], a.code[1..|a.code| - 1]);
    EraseParts([IfJump(lab)] + a.code[1..|a.code| - 1], [IfLabel(lab)]);
    IfMarks(lab);
    OneMark(IfJump(lab));
    OneMark(IfLabel(lab));
    assert a.code == [IfJump(lab)] + a.code[1..|a.code| - 1] + [IfLabel(lab)];
    OwnLabel(a.code, lab, a.lab);
  }

  lemma OwnLabel(code: seq<Instruction>, lab: nat, hi: nat)
    requires WellLabelled(code, lab, hi) && lab < hi <= TWO_56 && |code| >= 2
    requires code[0] == IfJump(lab) && code[|code| - 1] == IfLabel(lab)
    ensures PairedAt(code, lab, 0, |code| - 1)
  {
    IfNames(lab);
    assert Paired(code, lab);
    var i, j :| 0 <= i < j < |code| && PairedAt(code, lab, i, j);
  }

  lemma IfEnds(fw: FloatWord, sizes: Sizes, l: Layout, lab: nat, n: Node)
    requires n.IfNode?
    ensures var a := CompileNode(fw, sizes, l, lab, n);
            && |a.code| >= 2 && a.code[0] == IfJump(lab) && a.code[|a.code| - 1] == IfLabel(lab) && lab < a.lab
  {
    hide CompileBranches, CompileNodes, Base;
    var b := CompileBranches(fw, sizes, l, lab + 1, n, 0);
    BranchLabelsGrow(fw, sizes, l, lab + 1, n, 0);
    if n.tailElse.Some? {
      LabelsGrow(fw, sizes, b.layout, b.lab, n.tailElse.value.nodes, 0);
    }
  }
}
