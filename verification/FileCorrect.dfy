/** Files of any number of straight functions: linking puts their code in a row, none
    returns, and so one runs into the next. */
module FileCorrect {
  import opened Wrappers
  import opened Words
  import opened Vm
  import opened Ast
  import opened ExprCompiler
  import opened ExprCorrect
  import opened StmtCompiler
  import opened StmtCorrect
  import opened StmtGrammar
  import X = BlockExact

  /** Every function's body is straight; other nodes emit no code. */
  predicate StraightFile(file: seq<Node>) {
    forall k, m :: 0 <= k < |file| && file[k].FuncNode? && 0 <= m < |file[k].block.nodes| ==>
                     Straight(file[k].block.nodes[m])
  }

  /** The printed lines after the functions from the `i`-th node on: each starts without
      variables. */
  function FileMeaning(written: bool, file: seq<Node>, i: nat, console: seq<Line>): Option<seq<Line>>
    requires StraightFile(file)
    decreases |file| - i
  {
    if i >= |file| then Some(console)
    else if !file[i].FuncNode? then FileMeaning(written, file, i + 1, console)
    else
      var w :- BlockMeaning(written, file[i].block.nodes, 0, World(map[], console));
      FileMeaning(written, file, i + 1, w.console)
  }

  /** The bytes the functions need: they all use the one frame the machine starts with. */
  function FileRoom(fw: FloatWord, sizes: Sizes, lab: nat, file: seq<Node>, i: nat): nat
    decreases |file| - i
  {
    if i >= |file| then 0
    else if !file[i].FuncNode? then FileRoom(fw, sizes, lab, file, i + 1)
    else
      var nodes := file[i].block.nodes;
      Max(BlockRoom(fw, sizes, EMPTY_LAYOUT, lab, nodes, 0),
          FileRoom(fw, sizes, CompileNodes(fw, sizes, EMPTY_LAYOUT, lab, nodes, 0).lab, file, i + 1))
  }

  /** After `len` instructions the console shows `lines`, or there is no defined result. */
  ghost predicate Shows(p: Program, s: State, len: nat, lines: Option<seq<Line>>) {
    match lines
    case None => Exec(p, s, len) == None
    case Some(c) =>
      Exec(p, s, len).Some? && Exec(p, s, len).value.pc == s.pc + len && Exec(p, s, len).value.console == c
  }

  /** Running the linked functions prints what they print one after the other. */
  lemma {:induction false} FunctionsRun(
      fw: FloatWord, sizes: Sizes, p: Program, s: State, lab: nat, file: seq<Node>, i: nat)
    requires StraightFile(file) && Ready(s, 0, FileRoom(fw, sizes, lab, file, i))
    requires CodeAt(p, s.pc, CompileFuncs(fw, sizes, lab, file, i).code)
    ensures Shows(p, s, |CompileFuncs(fw, sizes, lab, file, i).code|, FileMeaning(false, file, i, s.console))
    decreases |file| - i
  {
    hide Exec, Straight, BlockMeaning, CompileNodes, BlockRoom, Holds;
    if i >= |file| {
      NoTicks(p, s);
    } else if !file[i].FuncNode? {
      FunctionsRun(fw, sizes, p, s, lab, file, i + 1);
    } else {
      var nodes := file[i].block.nodes;
      var a := CompileNodes(fw, sizes, EMPTY_LAYOUT, lab, nodes, 0);
      var b := CompileFuncs(fw, sizes, a.lab, file, i + 1);
      var w := World(map[], s.console);
      CodeAtSplit(p, s.pc, a.code, b.code);
      assert Holds(s, EMPTY_LAYOUT, w) by { NothingHeld(s); }
      BlockRuns(fw, sizes, p, s, EMPTY_LAYOUT, lab, nodes, 0, w);
      if BlockMeaning(false, nodes, 0, w).None? {
        ThenNothing(p, s, |a.code|, |b.code|);
      } else {
        var t := Exec(p, s, |a.code|).value;
        HeldConsole(t, a.layout, BlockMeaning(false, nodes, 0, w).value);
        FunctionsRun(fw, sizes, p, t, a.lab, file, i + 1);
        ExecAdd(p, s, |a.code|, |b.code|);
      }
    }
  }

  lemma NothingHeld(s: State)
    ensures Holds(s, EMPTY_LAYOUT, World(map[], s.console))
  {
  }

  lemma HeldConsole(s: State, l: Layout, w: World)
    requires Holds(s, l, w)
    ensures s.console == w.console
  {
  }

  /** Expressions without binary - and / in every function. */
  predicate SymmetricFile(file: seq<Node>) {
    forall k, m :: 0 <= k < |file| && file[k].FuncNode? && 0 <= m < |file[k].block.nodes| ==>
                     SymmetricNode(file[k].block.nodes[m])
  }

  lemma {:induction false} SymmetricFileMeans(file: seq<Node>, i: nat, console: seq<Line>)
    requires StraightFile(file) && SymmetricFile(file)
    ensures FileMeaning(false, file, i, console) == FileMeaning(true, file, i, console)
    decreases |file| - i
  {
    hide Straight, SymmetricNode, BlockMeaning;
    if i < |file| {
      if file[i].FuncNode? {
        var w := World(map[], console);
        SymmetricBlock(file[i].block.nodes, 0, w);
        var v := BlockMeaning(false, file[i].block.nodes, 0, w);
        if v.Some? {
          SymmetricFileMeans(file, i + 1, v.value.console);
        }
      } else {
        SymmetricFileMeans(file, i + 1, console);
      }
    }
  }

  // ----- exactly which files -----

  /** Other literals and signs in the functions' bodies, and nothing else. */
  ghost predicate SameTop(n: Node, m: Node) {
    if !n.FuncNode? then m == n
    else m.FuncNode? && m == X.WithBlock(n, m.block.nodes) && X.SameBlock(n.block.nodes, m.block.nodes)
  }

  ghost predicate SameFile(file: seq<Node>, others: seq<Node>) {
    |others| == |file| && forall k :: 0 <= k < |file| ==> SameTop(file[k], others[k])
  }

  /** The expressions of a function have values; other nodes are not run. */
  predicate TopValued(written: bool, n: Node)
    requires n.FuncNode? ==> forall m :: 0 <= m < |n.block.nodes| ==> Straight(n.block.nodes[m])
  {
    n.FuncNode? ==> forall m :: 0 <= m < |n.block.nodes| ==> X.Valued(written, n.block.nodes[m])
  }

  predicate TopSymmetric(n: Node) {
    n.FuncNode? ==> forall m :: 0 <= m < |n.block.nodes| ==> SymmetricNode(n.block.nodes[m])
  }

  predicate StraightTop(n: Node) {
    n.FuncNode? ==> X.StraightBlock(n.block.nodes)
  }

  /** A file has a meaning exactly when all its functions' expressions have values. */
  lemma {:induction false} HasFileMeaning(written: bool, file: seq<Node>, i: nat, console: seq<Line>)
    requires StraightFile(file)
    ensures FileMeaning(written, file, i, console).Some? <==>
            forall k :: i <= k < |file| ==> TopValued(written, file[k])
    decreases |file| - i
  {
    hide Straight, BlockMeaning, X.Valued;
    if i < |file| {
      if file[i].FuncNode? {
        var w := World(map[], console);
        X.HasBlockMeaning(written, file[i].block.nodes, 0, w);
        var v := BlockMeaning(written, file[i].block.nodes, 0, w);
        if v.Some? {
          HasFileMeaning(written, file, i + 1, v.value.console);
        }
      } else {
        HasFileMeaning(written, file, i + 1, console);
      }
    }
  }

  /** Other literals for one node of a file: values as written, and not all of them as
      compiled if it has a binary - or /. */
  lemma OtherTop(n: Node) returns (m: Node)
    requires StraightTop(n) && WellShaped(n)
    ensures SameTop(n, m) && StraightTop(m) && WellShaped(m)
    ensures TopValued(true, m) && (!TopSymmetric(n) ==> !TopValued(false, m))
    ensures X.Spellable(YieldNode(n)) ==> X.Spellable(YieldNode(m))
  {
    hide Straight, X.SameNode, X.Valued, SymmetricNode, YieldNode, X.Spellable, YieldNodes;
    if n.FuncNode? {
      var nodes := X.OtherBlock(n.block.nodes);
      m := X.WithBlock(n, nodes);
      X.BlockSpellable(n.block.nodes, 0);
      X.BlockSpellable(nodes, 0);
      if X.Spellable(YieldNode(n)) {
        X.FunctionSpellable(n, m);
      }
    } else {
      m := n;
    }
  }

  lemma {:induction false} OtherFile(file: seq<Node>) returns (others: seq<Node>)
    requires forall k :: 0 <= k < |file| ==> StraightTop(file[k]) && WellShaped(file[k])
    ensures SameFile(file, others)
    ensures forall k :: 0 <= k < |file| ==>
              && StraightTop(others[k]) && WellShaped(others[k])
              && TopValued(true, others[k]) && (!TopSymmetric(file[k]) ==> !TopValued(false, others[k]))
              && (X.Spellable(YieldNode(file[k])) ==> X.Spellable(YieldNode(others[k])))
  {
    hide StraightTop, WellShaped, SameTop, TopValued, TopSymmetric, X.Spellable, YieldNode;
    if file == [] {
      others := [];
    } else {
      var n := |file| - 1;
      others := OtherFile(file[..n]);
      var m := OtherTop(file[n]);
      others := others + [m];
    }
  }

  lemma Tops(file: seq<Node>)
    requires WellShapedBlock(Block(file))
    ensures StraightFile(file) <==> forall k :: 0 <= k < |file| ==> StraightTop(file[k])
    ensures SymmetricFile(file) <==> forall k :: 0 <= k < |file| ==> TopSymmetric(file[k])
  {
    hide Straight, SymmetricNode;
    forall k | 0 <= k < |file| && file[k].FuncNode? ensures WellShapedBlock(file[k].block) {
      assert WellShaped(file[k]);
    }
  }

  /** A file with a binary - or / in some function: another one of its shape means something
      as written and nothing as compiled. */
  lemma FileDiffers(file: seq<Node>) returns (others: seq<Node>)
    requires WellShapedBlock(Block(file)) && StraightFile(file) && !SymmetricFile(file)
    ensures SameFile(file, others) && WellShapedBlock(Block(others)) && StraightFile(others)
    ensures FileMeaning(true, others, 0, []).Some? && FileMeaning(false, others, 0, []) == None
    ensures X.Spellable(YieldNodes(file, 0)) ==> X.Spellable(YieldNodes(others, 0))
  {
    hide Straight, StraightTop, WellShaped, SameTop, TopValued, TopSymmetric, X.Spellable, YieldNode, YieldNodes,
         SymmetricFile, StraightFile, FileMeaning;
    Tops(file);
    others := OtherFile(file);
    Tops(others);
    HasFileMeaning(true, others, 0, []);
    HasFileMeaning(false, others, 0, []);
    X.BlockSpellable(file, 0);
    X.BlockSpellable(others, 0);
  }

  lemma SameFileSymmetric(file: seq<Node>, others: seq<Node>)
    requires WellShapedBlock(Block(file)) && StraightFile(file) && SameFile(file, others)
    ensures StraightFile(others) && (SymmetricFile(others) <==> SymmetricFile(file))
  {
    hide Straight, SymmetricNode, X.SameNode, WellShaped;
    Tops(file);
    forall k, m | 0 <= k < |file| && file[k].FuncNode? && 0 <= m < |file[k].block.nodes|
      ensures Straight(others[k].block.nodes[m])
              && (SymmetricNode(others[k].block.nodes[m]) <==> SymmetricNode(file[k].block.nodes[m]))
    {
      assert SameTop(file[k], others[k]) && StraightTop(file[k]);
      X.SameKeeps(file[k].block.nodes[m], others[k].block.nodes[m]);
    }
  }

  /** Among all files of one shape that have a meaning as written, the compiled meaning is that
      one for all of them if and only if no function has a binary - or /. */
  lemma FileExact(file: seq<Node>)
    requires WellShapedBlock(Block(file)) && StraightFile(file)
    ensures (forall others ::
               SameFile(file, others) && StraightFile(others) && FileMeaning(true, others, 0, []).Some? ==>
                 FileMeaning(false, others, 0, []) == FileMeaning(true, others, 0, []))
       <==> SymmetricFile(file)
  {
    hide StraightFile, SymmetricFile, SameFile, FileMeaning, WellShaped;
    if SymmetricFile(file) {
      forall others | SameFile(file, others) && StraightFile(others)
        ensures FileMeaning(false, others, 0, []) == FileMeaning(true, others, 0, [])
      {
        SameFileSymmetric(file, others);
        SymmetricFileMeans(others, 0, []);
      }
    } else {
      var others := FileDiffers(file);
    }
  }

  /** Files of one shape need the same bytes. */
  lemma {:induction false} SameFileRoom(
      fw: FloatWord, sizes: Sizes, lab: nat, file: seq<Node>, others: seq<Node>, i: nat)
    requires WellShapedBlock(Block(file)) && StraightFile(file) && SameFile(file, others)
    ensures FileRoom(fw, sizes, lab, others, i) == FileRoom(fw, sizes, lab, file, i)
    decreases |file| - i
  {
    hide Straight, X.SameNode, CompileNodes, BlockRoom, WellShaped;
    if i < |file| {
      assert SameTop(file[i], others[i]);
      if file[i].FuncNode? {
        var a, b := file[i].block.nodes, others[i].block.nodes;
        Tops(file);
        assert StraightTop(file[i]);
        X.SameLayouts(fw, sizes, EMPTY_LAYOUT, lab, a, b, 0);
        SameFileRoom(fw, sizes, CompileNodes(fw, sizes, EMPTY_LAYOUT, lab, a, 0).lab, file, others, i + 1);
      } else {
        SameFileRoom(fw, sizes, lab, file, others, i + 1);
      }
    }
  }

  // ----- shorter runs -----

  /** The console only grows. */
  lemma StepPrints(p: Program, s: State)
    requires Runnable(p, s) && Step(p, s).Some?
    ensures s.console <= Step(p, s).value.console
  {
    hide Put32, Put64, Slot, Get32, Get64, Alu, ReadBytes, WriteBytes;
  }

  lemma {:induction false} RunPrints(p: Program, s: State, n: nat)
    requires Exec(p, s, n).Some?
    ensures s.console <= Exec(p, s, n).value.console
    decreases n
  {
    hide Step;
    if n > 0 && Runnable(p, s) {
      StepPrints(p, s);
      RunPrints(p, Step(p, s).value, n - 1);
    }
  }

  /** What a run that is cut short has printed is the beginning of what it would print. */
  lemma CutShort(p: Program, s: State, n: nat, m: nat)
    requires n <= m && Exec(p, s, m).Some?
    ensures Exec(p, s, n).Some? && Exec(p, s, n).value.console <= Exec(p, s, m).value.console
  {
    hide Step, Exec;
    ExecAdd(p, s, n, m - n);
    if Exec(p, s, n).Some? {
      RunPrints(p, Exec(p, s, n).value, m - n);
    }
  }
}
