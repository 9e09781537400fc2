/** From source text to the machine's memory and console. */
module EndToEnd {
  import opened Wrappers
  import opened Words
  import opened Vm
  import opened Tokens
  import opened Ast
  import opened ExprCompiler
  import opened ExprCorrect
  import opened StmtCompiler
  import opened StmtCorrect
  import opened Grammar
  import opened StmtGrammar
  import opened Lexer
  import opened LexerProofs
  import opened Loose
  import opened StmtLoose
  import opened FileCorrect
  import opened Flat
  import opened FlatTree
  import P = ExprParser
  import PP = ExprParserProofs
  import SP = StmtParser
  import SPP = StmtParserProofs
  import TS = TokenStream
  import Parsing = StmtParsing
  import C = Compiler
  import T = TypeTable
  import Agreement
  import X = BlockExact

  /** Parsing a flat expression and running its code leaves at the result slot the flat
      value with swapped operands; where no - or / stands between operands, that is the
      value as written. */
  lemma FlatRuns(fw: FloatWord, p: Program, s: State, xs: seq<Operand>, ops: seq<Kind>, rest: seq<Token>, o: nat)
    requires FlatOps(xs, ops) && PP.Stops(rest, 3) && Ready(s, o, Extent(Tree(xs, ops)))
    requires CodeAt(p, s.pc, CompileExpr(fw, Tree(xs, ops), o))
    ensures P.ParseExpr(FlatTokens(xs, ops) + rest) == P.Ok(Tree(xs, ops), rest)
    ensures Yields(p, s, |CompileExpr(fw, Tree(xs, ops), o)|, o, Extent(Tree(xs, ops)), FlatValue(false, xs, ops))
    ensures (forall k :: 0 <= k < |ops| ==> ops[k] in {Plus, Star}) ==>
              Yields(p, s, |CompileExpr(fw, Tree(xs, ops), o)|, o, Extent(Tree(xs, ops)), FlatValue(true, xs, ops))
  {
    hide P.Parse, CompileExpr, Tree, FlatValue, Yields, Extent, FlatTokens, Yield, Shaped;
    var e := Tree(xs, ops);
    TreeValue(false, xs, ops);
    TreeYield(xs, ops);
    PP.Complete(e, 3, rest);
    ExprRuns(fw, p, s, e, o);
    if forall k :: 0 <= k < |ops| ==> ops[k] in {Plus, Star} {
      SymmetricFlat(xs, ops);
    }
  }

  // ----- files of one function -----

  /** A file with exactly one function, the `f`-th node; the others are typedefs, global
      variables and statements, which emit no code. */
  predicate OnlyFunction(file: seq<Node>, f: nat) {
    f < |file| && forall k :: 0 <= k < |file| ==> (file[k].FuncNode? <==> k == f)
  }

  function Body(file: seq<Node>, f: nat): seq<Node>
    requires OnlyFunction(file, f)
  {
    file[f].block.nodes
  }

  predicate StraightBody(file: seq<Node>, f: nat) {
    OnlyFunction(file, f) && forall k :: 0 <= k < |Body(file, f)| ==> Straight(Body(file, f)[k])
  }

  /** Linking leaves the function's code, wherever in the file it stands. */
  lemma {:induction false} OnlyCode(fw: FloatWord, sizes: Sizes, file: seq<Node>, f: nat, lab: nat, i: nat)
    requires OnlyFunction(file, f)
    ensures CompileFuncs(fw, sizes, lab, file, i).code ==
            if i <= f then CompileNodes(fw, sizes, EMPTY_LAYOUT, lab, Body(file, f), 0).code else []
    decreases |file| - i
  {
    hide CompileNodes;
    if i < |file| {
      var next := if i == f then CompileNodes(fw, sizes, EMPTY_LAYOUT, lab, Body(file, f), 0).lab else lab;
      OnlyCode(fw, sizes, file, f, next, i + 1);
    }
  }

  /** The function's frame fits the stack. */
  ghost predicate Fits(fw: FloatWord, sizes: Sizes, file: seq<Node>, f: nat)
    requires OnlyFunction(file, f)
  {
    BlockRoom(fw, sizes, EMPTY_LAYOUT, 1, Body(file, f), 0) <= MAX_STACK
  }

  /** From text to memory: however it is written, a source of a file of one straight
      function parses to that file, and the compiled program, run from the
      start, leaves exactly the printed lines on the console and every four-byte variable
      in its slot; it has no defined result exactly when the statements have none. */
  lemma SourceRuns(src: string, fw: FloatWord, sizes: Sizes, file: seq<Node>, f: nat, p: Program)
    requires Lexable(src) && Matches(Toks(src), LooseFile(file)) && WellShapedBlock(Block(file))
    requires StraightBody(file, f) && Fits(fw, sizes, file, f)
    requires p.code == CompileFuncs(fw, sizes, 1, file, 0).code
    ensures SP.ParseRoot(Toks(src)) == P.Ok(Block(file), [])
    ensures var nodes, r := Body(file, f), Exec(p, Initial(0), |p.code|);
            match BlockMeaning(false, nodes, 0, NOTHING_YET)
            case None => r == None
            case Some(w) =>
              && r.Some? && r.value.pc == |p.code| && r.value.console == w.console
              && forall x :: x in w.vals && FirstSize(sizes, nodes, 0, x) == Some(4) ==>
                   VariableIs(r.value.stack, CompileNodes(fw, sizes, EMPTY_LAYOUT, 1, nodes, 0).layout, x, w.vals[x])
  {
    hide SP.ParseRoot, LooseFile, Matches, Exec, BlockMeaning, CompileNodes, CompileFuncs, FirstSize, BlockRoom,
         Straight, WellShapedBlock, Toks, Lexable, VariableIs;
    SPP.RootAccepts(Toks(src), Block(file));
    OnlyCode(fw, sizes, file, f, 1, 0);
    CompiledFunction(fw, sizes, Body(file, f), p);
  }

  datatype Outcome = SyntaxError | Undefined | Finished(console: seq<Line>)

  /** What compiling and running a parsed file for `ticks` instructions comes to. */
  ghost function Running(
      nodes: seq<Node>, fw: FloatWord, walk: T.Walk, fpu: (Arith, u32, u32) -> u32, ticks: nat): Outcome {
    match T.ProgramSizes(walk, nodes)
    case None => Undefined
    case Some(sizes) =>
      var code := CompileFuncs(fw, sizes, 1, nodes, 0).code;
      if |code| >= TWO_64 then Undefined else
        match Exec(Program(code, fpu), Initial(0), ticks)
        case None => Undefined
        case Some(t) => Finished(t.console)
  }

  /** What a source file comes to. */
  ghost function Behaviour(
      src: string, fw: FloatWord, walk: T.Walk, fpu: (Arith, u32, u32) -> u32, ticks: nat): Outcome
    requires Lexable(src)
  {
    match SP.ParseRoot(Toks(src))
    case Err(_) => SyntaxError
    case Ok(block, _) => Running(block.nodes, fw, walk, fpu, ticks)
  }

  /** The length of a file's program. */
  ghost function CodeLength(fw: FloatWord, walk: T.Walk, file: seq<Node>): nat {
    match T.ProgramSizes(walk, file)
    case None => 0
    case Some(sizes) => |CompileFuncs(fw, sizes, 1, file, 0).code|
  }

  /** Compiling gets through, and the functions' frame fits the stack. */
  ghost predicate Runs(fw: FloatWord, walk: T.Walk, file: seq<Node>) {
    && T.WellTyped(file) && CodeLength(fw, walk, file) < TWO_64
    && (T.ProgramSizes(walk, file).Some? ==>
          FileRoom(fw, T.ProgramSizes(walk, file).value, 1, file, 0) <= MAX_STACK)
  }

  ghost function Printed(lines: Option<seq<Line>>): Outcome {
    if lines.None? then Undefined else Finished(lines.value)
  }

  // ----- files of straight functions -----

  /** Every source that parses to a file of straight functions: given enough instructions
      it prints what the functions print one after the other, or is undefined when their
      statements are; with fewer it prints the beginning of that. A file that is not well
      typed is undefined. */
  lemma FileBehaves(
      src: string, fw: FloatWord, walk: T.Walk, fpu: (Arith, u32, u32) -> u32, file: seq<Node>, ticks: nat)
    requires Lexable(src) && SP.ParseRoot(Toks(src)) == P.Ok(Block(file), []) && StraightFile(file)
    ensures !T.WellTyped(file) ==> Behaviour(src, fw, walk, fpu, ticks) == Undefined
    ensures Runs(fw, walk, file) ==>
              var lines := FileMeaning(false, file, 0, []);
              && (ticks >= CodeLength(fw, walk, file) ==> Behaviour(src, fw, walk, fpu, ticks) == Printed(lines))
              && (lines.Some? ==>
                    && Behaviour(src, fw, walk, fpu, ticks).Finished?
                    && Behaviour(src, fw, walk, fpu, ticks).console <= lines.value)
  {
    hide SP.ParseRoot, Exec, FileMeaning, CompileFuncs, FileRoom, StraightFile, Toks, Lexable, T.WellTyped,
         T.ProgramSizes;
    T.WellTypedExact(walk, file);
    if Runs(fw, walk, file) {
      var sizes := T.ProgramSizes(walk, file).value;
      var p := Program(CompileFuncs(fw, sizes, 1, file, 0).code, fpu);
      FunctionsRun(fw, sizes, p, Initial(0), 1, file, 0);
      var lines := FileMeaning(false, file, 0, []);
      if ticks >= |p.code| {
        ExecAdd(p, Initial(0), |p.code|, ticks - |p.code|);
        if lines.Some? {
          Halted(p, Exec(p, Initial(0), |p.code|).value, ticks - |p.code|);
        }
      } else if lines.Some? {
        CutShort(p, Initial(0), ticks, |p.code|);
      }
    }
  }

  lemma Halted(p: Program, s: State, ticks: nat)
    requires s.pc == |p.code|
    ensures Exec(p, s, ticks) == Some(s)
  {
  }

  /** The same from text, however it is spaced; without binary - and /, that is the meaning as
      written. */
  lemma SourceBehaves(
      src: string, fw: FloatWord, walk: T.Walk, fpu: (Arith, u32, u32) -> u32, file: seq<Node>, ticks: nat)
    requires Lexable(src) && Matches(Toks(src), LooseFile(file)) && WellShapedBlock(Block(file)) && StraightFile(file)
    ensures !T.WellTyped(file) ==> Behaviour(src, fw, walk, fpu, ticks) == Undefined
    ensures Runs(fw, walk, file) && ticks >= CodeLength(fw, walk, file) ==>
              && Behaviour(src, fw, walk, fpu, ticks) == Printed(FileMeaning(false, file, 0, []))
              && (SymmetricFile(file) ==>
                    Behaviour(src, fw, walk, fpu, ticks) == Printed(FileMeaning(true, file, 0, [])))
  {
    hide SP.ParseRoot, LooseFile, Matches, FileMeaning, StraightFile, WellShapedBlock, Toks, Lexable, SymmetricFile,
         CodeLength, Behaviour, Runs, T.WellTyped;
    SPP.RootAccepts(Toks(src), Block(file));
    FileBehaves(src, fw, walk, fpu, file, ticks);
    if SymmetricFile(file) {
      SymmetricFileMeans(file, 0, []);
    }
  }

  /** A source that starts with a space or a tab does not parse: nothing skips its first
      token. */
  lemma LeadingSpace(src: string, fw: FloatWord, walk: T.Walk, fpu: (Arith, u32, u32) -> u32, ticks: nat)
    requires Lexable(src) && src != "" && IsSpace(src[0])
    ensures Behaviour(src, fw, walk, fpu, ticks) == SyntaxError
  {
    hide FromChars, Running;
    TokenExtent(src);
    NoFileThere(Toks(src));
  }

  lemma NoFileThere(ts: seq<Token>)
    requires P.Head(ts) == Space
    ensures SP.ParseRoot(ts).Err?
  {
    hide SP.ParseNode, SP.ParseIf, SP.ParseFunction, SP.ParseReturn, SP.ParseFor, SP.ParseTypedef, SP.ParseKeywordNode;
    assert SP.ParseNode(ts) == P.Err(false) by { SPP.NodeByKeyword(ts); }
    assert SP.SkipNewlines(ts) == ts && ts != [];
    assert SP.ParseNodes(ts) == P.Ok([], ts);
    assert SP.ParseBlock(ts) == P.Ok(Block([]), ts);
  }

  /** A printed file parses to itself. */
  lemma PrintedParses(file: seq<Node>)
    requires WellShapedBlock(Block(file)) && X.Spellable(YieldNodes(file, 0))
    ensures var src := PrintAll(YieldNodes(file, 0));
            Lexable(src) && Toks(src) == YieldNodes(file, 0) && SP.ParseRoot(Toks(src)) == P.Ok(Block(file), [])
  {
    hide SP.ParseRoot, YieldNodes, WellShapedBlock, PrintAll, Toks, Lexable, Printable;
    PrintLexes(YieldNodes(file, 0));
    SPP.RootComplete(Block(file));
  }

  /** In particular a printed file. */
  lemma PrintedFileBehaves(
      fw: FloatWord, walk: T.Walk, fpu: (Arith, u32, u32) -> u32, file: seq<Node>, ticks: nat)
    requires WellShapedBlock(Block(file)) && StraightFile(file) && X.Spellable(YieldNodes(file, 0))
    requires Runs(fw, walk, file) && ticks >= CodeLength(fw, walk, file)
    ensures var src := PrintAll(YieldNodes(file, 0));
            && Lexable(src)
            && Behaviour(src, fw, walk, fpu, ticks) == Printed(FileMeaning(false, file, 0, []))
            && (SymmetricFile(file) ==>
                  Behaviour(src, fw, walk, fpu, ticks) == Printed(FileMeaning(true, file, 0, [])))
  {
    hide YieldNodes, LooseFile, Matches, FileMeaning, StraightFile, WellShapedBlock, PrintAll, Toks, Lexable,
         SymmetricFile, CodeLength, Behaviour, Runs, Printable, T.WellTyped;
    PrintedParses(file);
    FileWritten(file);
    SourceBehaves(PrintAll(YieldNodes(file, 0)), fw, walk, fpu, file, ticks);
  }

  /** With a binary - or / in some function, some file that differs only in literals and their
      signs has a meaning as written and does not run to it: its behaviour is undefined. */
  lemma AsymmetricFileDiffers(
      fw: FloatWord, walk: T.Walk, fpu: (Arith, u32, u32) -> u32, file: seq<Node>) returns (others: seq<Node>)
    requires StraightFile(file) && WellShapedBlock(Block(file)) && X.Spellable(YieldNodes(file, 0))
    requires Runs(fw, walk, file) && !SymmetricFile(file)
    ensures SameFile(file, others) && StraightFile(others) && FileMeaning(true, others, 0, []).Some?
    ensures X.Spellable(YieldNodes(others, 0))
    ensures var src := PrintAll(YieldNodes(others, 0));
            && Lexable(src) && SP.ParseRoot(Toks(src)) == P.Ok(Block(others), [])
            && NeverDefined(src, fw, walk, fpu, CodeLength(fw, walk, others))
  {
    hide SP.ParseRoot, YieldNodes, FileMeaning, StraightFile, WellShapedBlock, PrintAll, Toks, Lexable, SymmetricFile,
         SameFile, CodeLength, NeverDefined, Runs, Printable;
    others := FileDiffers(file);
    PrintedParses(others);
    OtherUndefined(fw, walk, fpu, file, others, PrintAll(YieldNodes(others, 0)));
  }

  ghost predicate NeverDefined(
      src: string, fw: FloatWord, walk: T.Walk, fpu: (Arith, u32, u32) -> u32, from: nat)
    requires Lexable(src)
  {
    forall ticks :: ticks >= from ==> Behaviour(src, fw, walk, fpu, ticks) == Undefined
  }

  lemma OtherUndefined(
      fw: FloatWord, walk: T.Walk, fpu: (Arith, u32, u32) -> u32, file: seq<Node>, others: seq<Node>, src: string)
    requires WellShapedBlock(Block(file)) && StraightFile(file) && SameFile(file, others) && Runs(fw, walk, file)
    requires StraightFile(others) && FileMeaning(false, others, 0, []) == None
    requires Lexable(src) && SP.ParseRoot(Toks(src)) == P.Ok(Block(others), [])
    ensures NeverDefined(src, fw, walk, fpu, CodeLength(fw, walk, others))
  {
    hide SP.ParseRoot, FileMeaning, StraightFile, WellShapedBlock, Toks, Lexable, SameFile, CodeLength, Behaviour, Runs;
    OtherRuns(fw, walk, file, others);
    forall ticks | ticks >= CodeLength(fw, walk, others) ensures Behaviour(src, fw, walk, fpu, ticks) == Undefined {
      FileBehaves(src, fw, walk, fpu, others, ticks);
      if CodeLength(fw, walk, others) >= TWO_64 {
        TooLong(src, fw, walk, fpu, others, ticks);
      }
    }
  }

  /** Another file of the shape has the same types and needs the same bytes. */
  lemma OtherRuns(fw: FloatWord, walk: T.Walk, file: seq<Node>, others: seq<Node>)
    requires WellShapedBlock(Block(file)) && StraightFile(file) && SameFile(file, others) && Runs(fw, walk, file)
    ensures CodeLength(fw, walk, others) < TWO_64 ==> Runs(fw, walk, others)
  {
    hide T.WellTyped, T.ProgramSizes, FileRoom, StraightFile, WellShapedBlock, CompileFuncs, X.SameBlock;
    T.OtherFunctions(walk, file, others);
    if T.ProgramSizes(walk, file).Some? {
      SameFileRoom(fw, T.ProgramSizes(walk, file).value, 1, file, others, 0);
    }
  }

  lemma TooLong(src: string, fw: FloatWord, walk: T.Walk, fpu: (Arith, u32, u32) -> u32, file: seq<Node>, ticks: nat)
    requires Lexable(src) && SP.ParseRoot(Toks(src)) == P.Ok(Block(file), []) && CodeLength(fw, walk, file) >= TWO_64
    ensures Behaviour(src, fw, walk, fpu, ticks) == Undefined
  {
    hide SP.ParseRoot, T.ProgramSizes, CompileFuncs, Exec;
  }

  // ----- a file whose output is wrong -----

  const DIFFERENCE: Expr := Ops([Kind.Sub], [Atom(IntToken(3)), Atom(IntToken(1))])
  const PRINT: Node := ExprNode(Funcall([Atom(SymToken("print")), DIFFERENCE]))

  lemma PrintMeaning()
    ensures Straight(PRINT) && WellShaped(PRINT)
    ensures BlockMeaning(true, [PRINT], 0, NOTHING_YET) == Some(World(map[], [LineI32(2)]))
    ensures BlockMeaning(false, [PRINT], 0, NOTHING_YET) == Some(World(map[], [LineI32(-2)]))
  {
    Agreement.DifferenceExample();
    assert PrintsOne(PRINT.expr) && !Arithmetic(PRINT.expr);
    assert Shaped(DIFFERENCE, 3) by { DifferenceShaped(); }
    assert Shaped(PRINT.expr, 0);
    assert Shaped(PRINT.expr, 1);
    assert Shaped(PRINT.expr, 2);
    forall written {:trigger Value(written, DIFFERENCE)}
      ensures BlockMeaning(written, [PRINT], 0, NOTHING_YET) ==
              match Value(written, DIFFERENCE) case None => None case Some(v) => Some(World(map[], [LineI32(v)]))
    {
      var w := Meaning(written, PRINT, NOTHING_YET);
      assert forall v :: [] + [LineI32(v)] == [LineI32(v)];
      assert w.Some? ==> BlockMeaning(written, [PRINT], 1, w.value) == w;
    }
    assert Value(true, DIFFERENCE) == Some(2) && Value(false, DIFFERENCE) == Some(-2);
  }

  lemma DifferenceShaped()
    ensures Shaped(DIFFERENCE, 3)
  {
    assert forall i :: 0 <= i < 2 ==> Shaped(DIFFERENCE.exprs[i], 0);
    assert forall i :: 0 <= i < 2 ==> Shaped(DIFFERENCE.exprs[i], 1);
    assert ShapedNode(DIFFERENCE, 2);
    assert Shaped(DIFFERENCE, 2);
  }

  /** `print(3 - 1)` as a file's only function: whatever else the file declares, and however it
      is written, it prints -2 on every machine that runs it for at least four instructions,
      where 2 is written. */
  lemma WrongOutput(
      src: string, fw: FloatWord, walk: T.Walk, fpu: (Arith, u32, u32) -> u32, file: seq<Node>, f: nat, ticks: nat)
    requires Lexable(src) && Matches(Toks(src), LooseFile(file)) && WellShapedBlock(Block(file)) && T.WellTyped(file)
    requires OnlyFunction(file, f) && Body(file, f) == [PRINT] && ticks >= 4
    ensures Behaviour(src, fw, walk, fpu, ticks) == Finished([LineI32(-2)])
    ensures StraightFile(file) && Printed(FileMeaning(true, file, 0, [])) == Finished([LineI32(2)])
  {
    hide Behaviour, Toks, Lexable, LooseFile, Matches, BlockMeaning, FileMeaning, Straight, WellShaped, T.WellTyped;
    PrintMeaning();
    PrintFits(fw, walk, file, f);
    OnlyMeaning(true, file, f, 0, []);
    OnlyMeaning(false, file, f, 0, []);
    SourceBehaves(src, fw, walk, fpu, file, ticks);
  }

  lemma {:induction false} OnlyMeaning(written: bool, file: seq<Node>, f: nat, i: nat, console: seq<Line>)
    requires OnlyFunction(file, f) && StraightFile(file) && i <= |file|
    requires forall k :: 0 <= k < |Body(file, f)| ==> Straight(Body(file, f)[k])
    ensures FileMeaning(written, file, i, console) ==
            if i > f then Some(console) else
              match BlockMeaning(written, Body(file, f), 0, World(map[], console))
              case None => None
              case Some(w) => Some(w.console)
    decreases |file| - i
  {
    hide Straight, BlockMeaning;
    if i < |file| {
      var w := BlockMeaning(written, Body(file, f), 0, World(map[], console));
      OnlyMeaning(written, file, f, i + 1, if i == f && w.Some? then w.value.console else console);
    }
  }

  lemma {:induction false} OnlyRoom(fw: FloatWord, sizes: Sizes, lab: nat, file: seq<Node>, f: nat, i: nat)
    requires OnlyFunction(file, f)
    ensures FileRoom(fw, sizes, lab, file, i) ==
            if i > f then 0 else BlockRoom(fw, sizes, EMPTY_LAYOUT, lab, Body(file, f), 0)
    decreases |file| - i
  {
    hide BlockRoom, CompileNodes;
    if i < |file| {
      var next := if i == f then CompileNodes(fw, sizes, EMPTY_LAYOUT, lab, Body(file, f), 0).lab else lab;
      OnlyRoom(fw, sizes, next, file, f, i + 1);
    }
  }

  lemma PrintFits(fw: FloatWord, walk: T.Walk, file: seq<Node>, f: nat)
    requires OnlyFunction(file, f) && Body(file, f) == [PRINT] && T.WellTyped(file)
    ensures Runs(fw, walk, file) && CodeLength(fw, walk, file) == 4
  {
    hide T.WellTyped, T.ProgramSizes, CompileNodes, CompileFuncs, BlockRoom, FileRoom;
    T.WellTypedExact(walk, file);
    var sizes := T.ProgramSizes(walk, file).value;
    OnlyCode(fw, sizes, file, f, 1, 0);
    OnlyRoom(fw, sizes, 1, file, f, 0);
    PrintCode(fw, sizes);
  }

  lemma PrintCode(fw: FloatWord, sizes: Sizes)
    ensures |CompileNodes(fw, sizes, EMPTY_LAYOUT, 1, [PRINT], 0).code| == 4
    ensures BlockRoom(fw, sizes, EMPTY_LAYOUT, 1, [PRINT], 0) == 8
  {
    hide Base;
    assert CompileOps(fw, DIFFERENCE, 1, 0) == [];
    assert |CompileExpr(fw, DIFFERENCE, 0)| == 3;
    assert CompileArgs(fw, PRINT.expr, 2, 0) == [];
    assert |CompileExpr(fw, PRINT.expr, 0)| == 4;
    var a := CompileNode(fw, sizes, EMPTY_LAYOUT, 1, PRINT);
    assert CompileNodes(fw, sizes, a.layout, a.lab, [PRINT], 1).code == [];
    assert Extent(PRINT.expr) == 8 by { PrintExtent(); }
    assert BlockRoom(fw, sizes, a.layout, a.lab, [PRINT], 1) == 0;
  }

  lemma PrintExtent()
    ensures Extent(PRINT.expr) == 8
  {
    assert Extent(DIFFERENCE.exprs[0]) == 4 && Extent(DIFFERENCE.exprs[1]) == 4;
    assert MaxExtent(DIFFERENCE, 2) == 4;
    assert MaxExtent(DIFFERENCE, 1) == 4;
    assert Extent(DIFFERENCE) == 8;
    assert MaxExtent(PRINT.expr, 2) == 4;
    assert MaxExtent(PRINT.expr, 1) == 8;
  }

  // ----- a loop runs once -----

  function PrintOf(n: i32): Node {
    ExprNode(Funcall([Atom(SymToken("print")), Atom(IntToken(n))]))
  }

  lemma LoopMeaning(loop: Node, n: i32)
    requires loop.ForNode? && loop.block.nodes == [PrintOf(n)]
    ensures Straight(loop) && BlockMeaning(false, [loop], 0, NOTHING_YET) == Some(World(map[], [LineI32(n)]))
  {
    var stmt, w := PrintOf(n), World(map[], [LineI32(n)]);
    assert PrintsOne(stmt.expr) && !Arithmetic(stmt.expr);
    assert Straight(stmt);
    assert Meaning(false, stmt, NOTHING_YET) == Some(w) by { assert [] + [LineI32(n)] == [LineI32(n)]; }
    assert BlockMeaning(false, [stmt], 1, w) == Some(w) && BlockMeaning(false, [loop], 1, w) == Some(w);
    assert BlockMeaning(false, [stmt], 0, NOTHING_YET) == Some(w);
  }

  lemma LoopFits(fw: FloatWord, walk: T.Walk, file: seq<Node>, f: nat, n: i32)
    requires OnlyFunction(file, f) && T.WellTyped(file) && |Body(file, f)| == 1
    requires Body(file, f)[0].ForNode? && Body(file, f)[0].block.nodes == [PrintOf(n)]
    ensures Runs(fw, walk, file) && CodeLength(fw, walk, file) == 2
  {
    hide T.WellTyped, T.ProgramSizes, CompileNodes, CompileFuncs, BlockRoom, FileRoom;
    T.WellTypedExact(walk, file);
    var sizes := T.ProgramSizes(walk, file).value;
    OnlyCode(fw, sizes, file, f, 1, 0);
    OnlyRoom(fw, sizes, 1, file, f, 0);
    LoopCode(fw, sizes, Body(file, f)[0], n);
    assert Body(file, f) == [Body(file, f)[0]];
  }

  lemma LoopCode(fw: FloatWord, sizes: Sizes, loop: Node, n: i32)
    requires loop.ForNode? && loop.block.nodes == [PrintOf(n)]
    ensures |CompileNodes(fw, sizes, EMPTY_LAYOUT, 1, [loop], 0).code| == 2
    ensures BlockRoom(fw, sizes, EMPTY_LAYOUT, 1, [loop], 0) == 4
  {
    hide Base;
    var e := PrintOf(n).expr;
    assert PrintsOne(e);
    StmtCorrect.PrintCode(fw, e, 0);
    assert |CompileExpr(fw, e.exprs[1], 0)| == 1 && Extent(e.exprs[1]) == 4;
    OneNode(fw, sizes, PrintOf(n));
    OneNode(fw, sizes, loop);
    assert |CompileNode(fw, sizes, EMPTY_LAYOUT, 1, PrintOf(n)).code| == 2;
    assert NodeRoom(fw, sizes, EMPTY_LAYOUT, 1, PrintOf(n)) == 4;
    assert CompileNode(fw, sizes, EMPTY_LAYOUT, 1, loop) == CompileNodes(fw, sizes, EMPTY_LAYOUT, 1, [PrintOf(n)], 0);
    assert NodeRoom(fw, sizes, EMPTY_LAYOUT, 1, loop) == BlockRoom(fw, sizes, EMPTY_LAYOUT, 1, [PrintOf(n)], 0);
  }

  lemma OneNode(fw: FloatWord, sizes: Sizes, n: Node)
    ensures CompileNodes(fw, sizes, EMPTY_LAYOUT, 1, [n], 0).code == CompileNode(fw, sizes, EMPTY_LAYOUT, 1, n).code
    ensures BlockRoom(fw, sizes, EMPTY_LAYOUT, 1, [n], 0) ==
            Max(NodeRoom(fw, sizes, EMPTY_LAYOUT, 1, n), CompileNode(fw, sizes, EMPTY_LAYOUT, 1, n).layout.top)
  {
    hide CompileNode, NodeRoom;
    var a := CompileNode(fw, sizes, EMPTY_LAYOUT, 1, n);
    assert CompileNodes(fw, sizes, a.layout, a.lab, [n], 1).code == [];
    assert BlockRoom(fw, sizes, a.layout, a.lab, [n], 1) == a.layout.top;
  }

  /** A `for` whose body is `print(n)`, as the only statement of a file's only function: whatever
      its header says, `n` is printed once. */
  lemma LoopPrintsOnce(
      src: string, fw: FloatWord, walk: T.Walk, fpu: (Arith, u32, u32) -> u32, file: seq<Node>, f: nat, n: i32,
      ticks: nat)
    requires Lexable(src) && Matches(Toks(src), LooseFile(file)) && WellShapedBlock(Block(file)) && T.WellTyped(file)
    requires OnlyFunction(file, f) && |Body(file, f)| == 1 && ticks >= 2
    requires Body(file, f)[0].ForNode? && Body(file, f)[0].block.nodes == [PrintOf(n)]
    ensures Behaviour(src, fw, walk, fpu, ticks) == Finished([LineI32(n)])
  {
    hide Behaviour, Toks, Lexable, LooseFile, Matches, BlockMeaning, FileMeaning, Straight, WellShaped, T.WellTyped;
    assert Body(file, f) == [Body(file, f)[0]];
    LoopMeaning(Body(file, f)[0], n);
    LoopFits(fw, walk, file, f, n);
    OnlyMeaning(false, file, f, 0, []);
    SourceBehaves(src, fw, walk, fpu, file, ticks);
  }

  /** The whole chain as the objects run it: stream, parser, compiler, machine. */
  method CompileAndRun(src: string, fw: FloatWord, walk: T.Walk, fpu: (Arith, u32, u32) -> u32, ticks: u64)
    returns (out: Outcome)
    requires Lexable(src)
    ensures out == Behaviour(src, fw, walk, fpu, ticks)
  {
    hide SP.ParseRoot, CompileFuncs, Exec, Toks, Lexable, T.ProgramSizes, T.WellTyped;
    var stream := new TS.TokenStream(src);
    var root := Parsing.ParseRoot(stream);
    if root.Bad? { return SyntaxError; }
    var compiler := new C.Compiler(fw, walk);
    var ok := compiler.Compile(root.value.nodes);
    if !ok || |compiler.program| >= TWO_64 { return Undefined; }
    var vm := new ByteCodeVM(Program(compiler.program, fpu));
    ok := vm.Run(ticks);
    out := if ok then Finished(vm.console) else Undefined;
  }
}
