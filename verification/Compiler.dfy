/** The compiler as it runs: a function being compiled is an object whose stack top,
    variable map and instruction list the compiler updates while it walks the tree.
    Every method is tied to the function that says what is emitted. */
module Compiler {
  import opened Wrappers
  import opened Words
  import opened Vm
  import opened Tokens
  import opened Ast
  import E = ExprCompiler
  import S = StmtCompiler
  import T = TypeTable

  class CompilingFunc {
    var curStackTop: nat
    var varAddressMap: map<string, S.VarInfo>
    var instructions: seq<Instruction>

    constructor ()
      ensures Layout() == S.EMPTY_LAYOUT && instructions == []
    {
      curStackTop, varAddressMap, instructions := 0, map[], [];
    }

    ghost function Layout(): S.Layout
      reads this
    {
      S.Layout(curStackTop, varAddressMap)
    }

    method AddMoveInsts(dst: nat, from: nat, length: nat)
      modifies this`instructions
      ensures instructions == old(instructions) + S.Moves(dst, from, length)
    {
      for i := 0 to length
        invariant instructions == old(instructions) + S.Moves(dst, from, i)
      {
        instructions := instructions + [S.MoveAt(dst + i, from + i)];
      }
    }
  }

  class Compiler {
    const fw: E.FloatWord
    const types: T.TypeTable
    ghost var sizes: S.Sizes   // what a search of the table answers, once the types are in
    var current: CompilingFunc
    var curLabel: nat
    var errors: seq<string>
    var funcTable: seq<seq<Instruction>>
    var program: seq<Instruction>

    constructor (fw: E.FloatWord, walk: T.Walk)
      ensures this.fw == fw && types.walk == walk && Fresh() && fresh(types) && fresh(current)
    {
      this.fw := fw;
      types := new T.TypeTable(walk);
      current := new CompilingFunc();
      sizes, curLabel, errors, funcTable, program := map[], 1, [], [], [];
    }

    ghost predicate Fresh()
      reads this, types
    {
      types.Valid() && types.entries == T.BASIC && curLabel == 1 && errors == [] && funcTable == [] && program == []
    }

    /** The table answers searches as `sizes` says. */
    ghost predicate Typed()
      reads this`sizes, types
    {
      types.Valid() && sizes == T.SizesOf(types.walk, types.entries)
    }

    // ----- expressions -----

    method CompileExpr(e: Expr)
      modifies current
      ensures current.Layout() == old(current.Layout())
      ensures current.instructions == old(current.instructions) + E.CompileExpr(fw, e, old(current.curStackTop))
      decreases e, 1
    {
      match e {
        case Atom(_) => CompileLiteral(e);
        case Ops(_, exprs) =>
          if exprs != [] {
            CompileOps(e);
          }
        case Funcall(exprs) =>
          if exprs != [] {
            CompileFuncall(e);
          }
      }
    }

    method CompileLiteral(e: Expr)
      requires e.Atom?
      modifies current`instructions
      ensures current.instructions == old(current.instructions) + E.CompileExpr(fw, e, current.curStackTop)
    {
      if e.v.IntToken? {
        current.instructions := current.instructions +
          [Instruction(Set32, Base(STACK_TOP, current.curStackTop), Unsigned(e.v.i), 0)];
      } else if e.v.FloatToken? {
        current.instructions := current.instructions +
          [Instruction(Set32, Base(STACK_TOP, current.curStackTop), fw(e.v.digits), 0)];
      }
    }

    method CompileOps(e: Expr)
      requires e.Ops? && e.exprs != []
      modifies current
      ensures current.Layout() == old(current.Layout())
      ensures current.instructions == old(current.instructions) + E.CompileExpr(fw, e, old(current.curStackTop))
      decreases e, 0
    {
      var origin := current.curStackTop;
      CompileExpr(e.exprs[0]);
      if E.Negation(e) {
        current.instructions := current.instructions + [E.NegateAt(origin)];
      } else {
        CompileOpsLoop(e, origin);
      }
      current.curStackTop := origin;
    }

    method CompileOpsLoop(e: Expr, origin: nat)
      requires e.Ops? && e.exprs != [] && current.curStackTop == origin
      modifies current
      ensures current.varAddressMap == old(current.varAddressMap)
      ensures current.instructions == old(current.instructions) + E.CompileOps(fw, e, 0, origin)
      decreases e, 0, 0
    {
      hide E.CompileExpr, Base;
      current.curStackTop := current.curStackTop + 4;
      ghost var done := [];
      var i := 0;
      while i < |e.ops| && i + 1 < |e.exprs|
        invariant i <= |e.ops| && current == old(current)
        invariant current.curStackTop == origin + 4 && current.varAddressMap == old(current.varAddressMap)
        invariant current.instructions == old(current.instructions) + done
        invariant done + E.CompileOps(fw, e, i, origin) == E.CompileOps(fw, e, 0, origin)
      {
        CompileExpr(e.exprs[i + 1]);
        if E.BinOp(e.ops[i]).Some? {
          current.instructions := current.instructions +
            [Instruction(Bin(E.BinOp(e.ops[i]).value, I32),
                         Base(STACK_TOP, origin), Base(STACK_TOP, current.curStackTop), Base(STACK_TOP, origin))];
        }
        ghost var piece := E.CompileExpr(fw, e.exprs[i + 1], origin + 4) + E.OpAt(e.ops[i], origin);
        assert done + (piece + E.CompileOps(fw, e, i + 1, origin)) == done + piece + E.CompileOps(fw, e, i + 1, origin);
        done := done + piece;
        i := i + 1;
      }
    }

    method CompileFuncall(e: Expr)
      requires e.Funcall? && e.exprs != []
      modifies current
      ensures current.Layout() == old(current.Layout())
      ensures current.instructions == old(current.instructions) + E.CompileExpr(fw, e, old(current.curStackTop))
      decreases e, 0
    {
      hide E.CompileExpr, Base;
      assert E.CompileExpr(fw, e, current.curStackTop) ==
             E.CompileArgs(fw, e, 1, current.curStackTop) + E.CompileCall(E.CalleeName(e), current.curStackTop) by {
        E.CallCode(fw, e, current.curStackTop);
      }
      ghost var done := [];
      var i := 1;
      while i < |e.exprs|
        invariant 1 <= i <= |e.exprs| && current == old(current) && current.Layout() == old(current.Layout())
        invariant current.instructions == old(current.instructions) + done
        invariant done + E.CompileArgs(fw, e, i, current.curStackTop) == E.CompileArgs(fw, e, 1, current.curStackTop)
      {
        CompileExpr(e.exprs[i]);
        ghost var piece := E.CompileExpr(fw, e.exprs[i], current.curStackTop);
        assert done + (piece + E.CompileArgs(fw, e, i + 1, current.curStackTop))
            == done + piece + E.CompileArgs(fw, e, i + 1, current.curStackTop);
        done := done + piece;
        i := i + 1;
      }
      if E.CalleeName(e) == "print" {
        current.instructions := current.instructions +
          [Instruction(Call, SC_PRINT_I32, Base(STACK_TOP, current.curStackTop), 0)];
      }
    }

    // ----- statements -----

    method CompileDeclaration(d: Declaration)
      requires Typed()
      modifies this`errors, current
      ensures current.Layout() == S.Declare(sizes, old(current.Layout()), d)
      ensures current.instructions == old(current.instructions)
      ensures errors == old(errors) + S.CompileNode(fw, sizes, old(current.Layout()), 0, DeclNode(d)).errors
    {
      var t := S.TypeName(d.varType);
      T.Answers(types.walk, types.entries, t);
      var found := types.FindByName(t);
      if found.None? {
        errors := errors + [S.UnknownType(t)];
        return;
      }
      if d.name !in current.varAddressMap {
        current.varAddressMap := current.varAddressMap[d.name := S.VarInfo(found.value.size, current.curStackTop)];
      }
      current.curStackTop := current.curStackTop + found.value.size;
    }

    method CompileAssignment(a: Assignment)
      modifies current
      ensures var was := S.CompileNode(fw, sizes, old(current.Layout()), 0, AsgnNode(a));
              current.Layout() == was.layout && current.instructions == old(current.instructions) + was.code
    {
      if a.name !in current.varAddressMap {
        current.varAddressMap := current.varAddressMap[a.name := S.VarInfo(0, 0)];
      }
      var info := current.varAddressMap[a.name];
      var oldStackTop := current.curStackTop;
      CompileExpr(a.expr);
      current.AddMoveInsts(info.address, oldStackTop, info.size);
    }

    /** What every statement method promises: the emitted code, layout, errors and labels
        follow what was there. */
    twostate predicate Emits(was: CompilingFunc, out: S.Emitted)
      reads this, was
    {
      && current == was
      && was.instructions == old(was.instructions) + out.code
      && was.Layout() == out.layout
      && errors == old(errors) + out.errors
      && curLabel == out.lab
    }

    method CompileStatement(n: Node)
      requires Typed()
      modifies this`errors, this`curLabel, current
      ensures Emits(old(current), S.CompileNode(fw, sizes, old(current.Layout()), old(curLabel), n))
      decreases n, 1
    {
      match n {
        case DeclNode(d) => CompileDeclaration(d);
        case AsgnNode(a) => CompileAssignment(a);
        case ExprNode(e) => CompileExpr(e);
        case IfNode(_, _) => CompileIf(n);
        case ForNode(_, _, _, block) => CompileBlock(block.nodes);
        case _ =>
      }
    }

    method CompileIf(n: Node)
      requires Typed() && n.IfNode?
      modifies this`errors, this`curLabel, current
      ensures Emits(old(current), S.CompileNode(fw, sizes, old(current.Layout()), old(curLabel), n))
      decreases n, 0
    {
      hide S.CompileNodes, S.CompileBranches, Base, Typed;
      var here := Base(S.LABEL, curLabel);
      curLabel := curLabel + 1;
      current.instructions := current.instructions + [Instruction(JumpEqI32, 0, 0, here)];
      CompileBranches(n);
      if n.tailElse.Some? {
        CompileBlock(n.tailElse.value.nodes);
      }
      current.instructions := current.instructions + [Instruction(Label, here, 0, 0)];
    }

    method CompileBranches(n: Node)
      requires Typed() && n.IfNode?
      modifies this`errors, this`curLabel, current
      ensures Emits(old(current), S.CompileBranches(fw, sizes, old(current.Layout()), old(curLabel), n, 0))
      decreases n, 0, 0
    {
      hide Typed, S.CompileNodes;
      ghost var all := S.CompileBranches(fw, sizes, current.Layout(), curLabel, n, 0);
      ghost var code, errs := [], [];
      var i := 0;
      while i < |n.branches|
        invariant i <= |n.branches| && current == old(current)
        invariant current.instructions == old(current.instructions) + code && errors == old(errors) + errs
        invariant S.Follows(all, code, errs, S.CompileBranches(fw, sizes, current.Layout(), curLabel, n, i))
      {
        ghost var a := S.CompileNodes(fw, sizes, current.Layout(), curLabel, n.branches[i].block.nodes, 0);
        CompileBlock(n.branches[i].block.nodes);
        S.FollowsNext(all, code, errs, a, S.CompileBranches(fw, sizes, current.Layout(), curLabel, n, i + 1));
        code, errs := code + a.code, errs + a.errors;
        i := i + 1;
      }
    }

    method CompileBlock(nodes: seq<Node>)
      requires Typed()
      modifies this`errors, this`curLabel, current
      ensures Emits(old(current), S.CompileNodes(fw, sizes, old(current.Layout()), old(curLabel), nodes, 0))
      decreases nodes, 0
    {
      hide Typed;
      ghost var all := S.CompileNodes(fw, sizes, current.Layout(), curLabel, nodes, 0);
      ghost var code, errs := [], [];
      var i := 0;
      while i < |nodes|
        invariant i <= |nodes| && current == old(current)
        invariant current.instructions == old(current.instructions) + code && errors == old(errors) + errs
        invariant S.Follows(all, code, errs, S.CompileNodes(fw, sizes, current.Layout(), curLabel, nodes, i))
      {
        ghost var a := S.CompileNode(fw, sizes, current.Layout(), curLabel, nodes[i]);
        CompileStatement(nodes[i]);
        S.FollowsNext(all, code, errs, a, S.CompileNodes(fw, sizes, current.Layout(), curLabel, nodes, i + 1));
        code, errs := code + a.code, errs + a.errors;
        i := i + 1;
      }
    }

    method CompileFunc(n: Node)
      requires Typed() && n.FuncNode?
      modifies this`current, this`curLabel, this`errors, this`funcTable
      ensures var out := S.CompileNodes(fw, sizes, S.EMPTY_LAYOUT, old(curLabel), n.block.nodes, 0);
              && funcTable == old(funcTable) + [out.code] && errors == old(errors) + out.errors
              && curLabel == out.lab
    {
      current := new CompilingFunc();
      label compiling:
      CompileBlock(n.block.nodes);
      assert Emits@compiling(current, S.CompileNodes(fw, sizes, S.EMPTY_LAYOUT, old(curLabel), n.block.nodes, 0));
      assert current.instructions == S.CompileNodes(fw, sizes, S.EMPTY_LAYOUT, old(curLabel), n.block.nodes, 0).code;
      funcTable := funcTable + [current.instructions];
    }

    method Link()
      modifies this`program
      ensures program == old(program) + S.Concat(funcTable)
    {
      for i := 0 to |funcTable|
        invariant program == old(program) + S.Concat(funcTable[..i])
      {
        program := program + funcTable[i];
        assert funcTable[..i + 1][..i] == funcTable[..i];
      }
      assert funcTable[..|funcTable|] == funcTable;
    }

    lemma IsTyped()
      requires Typed()
      ensures types.Valid() && sizes == T.SizesOf(types.walk, types.entries)
    {
    }

    /** Looks up the types of the global variables; one that is not found is an assertion
        failure. The table of globals is not kept. */
    method CompileGlobal(nodes: seq<Node>) returns (ok: bool)
      requires Typed()
      ensures ok <==> T.GlobalsTyped(sizes, nodes)
    {
      hide Typed, types.Valid, T.Found, T.SizesOf;
      assert types.Valid() && sizes == T.SizesOf(types.walk, types.entries) by { IsTyped(); }
      for i := 0 to |nodes|
        invariant T.GlobalsTyped(sizes, nodes[..i])
      {
        if nodes[i].DeclNode? {
          T.Answers(types.walk, types.entries, S.TypeName(nodes[i].decl.varType));
          var found := types.FindByName(S.TypeName(nodes[i].decl.varType));
          if found.None? { return false; }
        }
      }
      assert nodes[..|nodes|] == nodes;
      ok := true;
    }

    method CompileFuncs(nodes: seq<Node>)
      requires Typed() && curLabel == 1 && errors == [] && funcTable == []
      modifies this`current, this`curLabel, this`errors, this`funcTable
      ensures var out := S.CompileFuncs(fw, sizes, 1, nodes, 0);
              S.Concat(funcTable) == out.code && errors == out.errors
    {
      hide Typed;
      ghost var all := S.CompileFuncs(fw, sizes, 1, nodes, 0);
      for i := 0 to |nodes|
        invariant S.Follows(all, S.Concat(funcTable), errors, S.CompileFuncs(fw, sizes, curLabel, nodes, i))
      {
        if nodes[i].FuncNode? {
          ghost var a := S.CompileNodes(fw, sizes, S.EMPTY_LAYOUT, curLabel, nodes[i].block.nodes, 0);
          ghost var was, errs := funcTable, errors;
          CompileFunc(nodes[i]);
          assert funcTable[..|funcTable| - 1] == was;
          S.FollowsNext(all, S.Concat(was), errs, a, S.CompileFuncs(fw, sizes, curLabel, nodes, i + 1));
        }
      }
    }

    /** Compiles a source file: its types, its globals, its functions, and links those. It
        breaks off when a struct has a field, or a global variable, of an unknown type. */
    method Compile(nodes: seq<Node>) returns (ok: bool)
      requires Fresh()
      modifies this, types
      ensures ok <==> T.WellTyped(nodes)
      ensures ok == T.ProgramSizes(types.walk, nodes).Some?
      ensures ok ==>
                var out := S.CompileFuncs(fw, T.ProgramSizes(types.walk, nodes).value, 1, nodes, 0);
                program == out.code && errors == out.errors
    {
      hide T.WellTyped, T.TypesOf, T.SizesOf, T.FieldsKnown, T.Holds, types.Valid;
      T.WellTypedExact(types.walk, nodes);
      ok := types.CompileTypes(nodes);
      if !ok { return; }
      sizes := T.SizesOf(types.walk, types.entries);
      ok := CompileGlobal(nodes);
      if !ok { return; }
      CompileFuncs(nodes);
      Link();
    }
  }
}
