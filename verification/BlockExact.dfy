/** Exactly which straight blocks mean as compiled what is written: those without a
    binary - or /. Two blocks have one shape when they differ only in integer literals and
    the signs before them, outside of loop headers. */
module BlockExact {
  import opened Wrappers
  import opened Words
  import opened Tokens
  import opened Ast
  import opened ExprCompiler
  import opened StmtCompiler
  import opened StmtCorrect
  import opened Grammar
  import opened StmtGrammar
  import opened Flat
  import opened FlatTree
  import opened FlatCover
  import Agreement
  import L = LexerProofs

  /** Two arithmetic trees with the same operators in the same places. */
  ghost predicate SamePattern(e: Expr, f: Expr) {
    exists xs, ys, ops :: FlatOps(xs, ops) && FlatOps(ys, ops) && e == Tree(xs, ops) && f == Tree(ys, ops)
  }

  /** The function or the loop with another body. */
  function WithBlock(n: Node, nodes: seq<Node>): Node
    requires n.FuncNode? || n.ForNode?
  {
    match n
    case FuncNode(name, args, results, _) => FuncNode(name, args, results, Block(nodes))
    case ForNode(init, cond, step, _) => ForNode(init, cond, step, Block(nodes))
  }

  ghost predicate SameNode(n: Node, m: Node)
    decreases n, 1
  {
    match n
    case AsgnNode(a) => m.AsgnNode? && m.asgn.name == a.name && SamePattern(a.expr, m.asgn.expr)
    case ExprNode(e) =>
      && m.ExprNode?
      && if PrintsOne(e)
         then PrintsOne(m.expr) && m.expr.exprs[0] == e.exprs[0] && SamePattern(e.exprs[1], m.expr.exprs[1])
         else SamePattern(e, m.expr)
    case ForNode(_, _, _, block) =>
      m.ForNode? && m == WithBlock(n, m.block.nodes) && SameBlock(block.nodes, m.block.nodes)
    case _ => m == n
  }

  ghost predicate SameBlock(nodes: seq<Node>, ms: seq<Node>)
    decreases nodes, 0
  {
    |ms| == |nodes| && forall k :: 0 <= k < |nodes| ==> SameNode(nodes[k], ms[k])
  }

  predicate StraightBlock(nodes: seq<Node>) {
    forall k :: 0 <= k < |nodes| ==> Straight(nodes[k]) && WellShaped(nodes[k])
  }

  // ----- what depends on the operators only -----

  predicate Commuting(ops: seq<Kind>) {
    forall k :: 0 <= k < |ops| ==> ops[k] in {Plus, Star}
  }

  predicate AllSymmetric(exprs: seq<Expr>) {
    forall k :: 0 <= k < |exprs| ==> Agreement.Symmetric(exprs[k])
  }

  lemma TermSymmetric(xs: seq<Operand>, ops: seq<Kind>)
    requires FlatOps(xs, ops)
    ensures Agreement.Symmetric(Term(xs, ops)) <==> Commuting(ops)
  {
    var e := Term(xs, ops);
    if ops != [] {
      assert !Negation(e);
      forall i | 0 <= i < |xs| ensures Agreement.Symmetric(e.exprs[i]) {
        assert e.exprs[i] == OperandExpr(xs[i]);
      }
    }
  }

  lemma {:induction false} TermsSymmetric(xs: seq<Operand>, ops: seq<Kind>)
    requires FlatOps(xs, ops)
    ensures Commuting(Terms(xs, ops).0) && AllSymmetric(Terms(xs, ops).1) <==> Commuting(ops)
    decreases |ops|
  {
    hide Term, Agreement.Symmetric, BinOp, Commuting, AllSymmetric;
    if ops == [] || !Additive(ops[SplitAt(ops)]) {
      TermSymmetric(xs, ops);
      OneSymmetric(Term(xs, ops));
    } else {
      var k := SplitAt(ops);
      TermsSymmetric(xs[..k + 1], ops[..k]);
      TermSymmetric(xs[k + 1..], ops[k + 1..]);
      var (o, t) := Terms(xs[..k + 1], ops[..k]);
      OneSymmetric(Term(xs[k + 1..], ops[k + 1..]));
      assert ops == ops[..k] + ([ops[k]] + ops[k + 1..]);
      Both(ops[..k], [ops[k]] + ops[k + 1..], [], []);
      Both([ops[k]], ops[k + 1..], [], []);
      Both(o, [ops[k]], t, [Term(xs[k + 1..], ops[k + 1..])]);
    }
  }

  lemma OneSymmetric(e: Expr)
    ensures Commuting([]) && (AllSymmetric([e]) <==> Agreement.Symmetric(e))
  {
    hide Agreement.Symmetric;
    assert [e][0] == e;
  }

  lemma Both(o: seq<Kind>, q: seq<Kind>, t: seq<Expr>, u: seq<Expr>)
    ensures Commuting(o + q) <==> Commuting(o) && Commuting(q)
    ensures AllSymmetric(t + u) <==> AllSymmetric(t) && AllSymmetric(u)
  {
    hide Agreement.Symmetric;
    assert forall i :: 0 <= i < |o| ==> o[i] == (o + q)[i];
    assert forall i :: 0 <= i < |q| ==> q[i] == (o + q)[|o| + i];
    assert forall i :: 0 <= i < |t| ==> t[i] == (t + u)[i];
    assert forall i :: 0 <= i < |u| ==> u[i] == (t + u)[|t| + i];
  }

  lemma TreeSymmetric(xs: seq<Operand>, ops: seq<Kind>)
    requires FlatOps(xs, ops)
    ensures Agreement.Symmetric(Tree(xs, ops)) <==> Commuting(ops)
  {
    hide Terms, BinOp;
    TermsSymmetric(xs, ops);
    var (o, t) := Terms(xs, ops);
    if o != [] {
      assert !Negation(Ops(o, t));
      assert Agreement.Symmetric(Ops(o, t)) <==> Commuting(o) && AllSymmetric(t);
    }
  }

  lemma OperandExtent(x: Operand)
    ensures Extent(OperandExpr(x)) == 4
  {
  }

  lemma TermExtent(xs: seq<Operand>, ops: seq<Kind>)
    requires |xs| == |ops| + 1
    ensures Extent(Term(xs, ops)) == if ops == [] then 4 else 8
  {
    hide OperandExpr;
    var e := Term(xs, ops);
    if ops == [] {
      OperandExtent(xs[0]);
    } else {
      forall i | 0 <= i < |e.exprs| ensures Extent(e.exprs[i]) == 4 {
        OperandExtent(xs[i]);
      }
      Widest(e, e, 1);
      AllFour(e, 1);
    }
  }

  lemma {:induction false} AllFour(e: Expr, i: nat)
    requires !e.Atom? && forall k :: 0 <= k < |e.exprs| ==> Extent(e.exprs[k]) == 4
    ensures MaxExtent(e, i) == 4
    decreases |e.exprs| - i
  {
    if i < |e.exprs| {
      AllFour(e, i + 1);
    }
  }

  lemma {:induction false} Widest(e: Expr, f: Expr, i: nat)
    requires !e.Atom? && !f.Atom? && |e.exprs| == |f.exprs|
    requires forall k :: 0 <= k < |e.exprs| ==> Extent(e.exprs[k]) == Extent(f.exprs[k])
    ensures MaxExtent(e, i) == MaxExtent(f, i)
    decreases |e.exprs| - i
  {
    if i < |e.exprs| {
      Widest(e, f, i + 1);
    }
  }

  lemma {:induction false} TermsExtent(xs: seq<Operand>, ys: seq<Operand>, ops: seq<Kind>)
    requires FlatOps(xs, ops) && FlatOps(ys, ops)
    ensures var (o, t) := Terms(xs, ops);
            var (q, u) := Terms(ys, ops);
            o == q && |t| == |u| && forall k :: 0 <= k < |t| ==> Extent(t[k]) == Extent(u[k])
    decreases |ops|
  {
    hide Term, Extent, BinOp;
    if ops == [] || !Additive(ops[SplitAt(ops)]) {
      TermExtent(xs, ops);
      TermExtent(ys, ops);
    } else {
      var k := SplitAt(ops);
      TermsExtent(xs[..k + 1], ys[..k + 1], ops[..k]);
      TermExtent(xs[k + 1..], ops[k + 1..]);
      TermExtent(ys[k + 1..], ops[k + 1..]);
    }
  }

  lemma TreeExtent(xs: seq<Operand>, ys: seq<Operand>, ops: seq<Kind>)
    requires FlatOps(xs, ops) && FlatOps(ys, ops)
    ensures Extent(Tree(xs, ops)) == Extent(Tree(ys, ops))
  {
    hide Terms, BinOp;
    TermsExtent(xs, ys, ops);
    var (o, t) := Terms(xs, ops);
    var (_, u) := Terms(ys, ops);
    if o != [] {
      Widest(Ops(o, t), Ops(o, u), 1);
    }
  }

  /** Expressions of one pattern are arithmetic of the parser's shape, need the same bytes,
      and have a binary - or / both or neither. */
  lemma PatternKeeps(e: Expr, f: Expr)
    requires SamePattern(e, f)
    ensures Arithmetic(e) && Arithmetic(f) && Shaped(e, 3) && Shaped(f, 3)
    ensures Extent(e) == Extent(f) && (Agreement.Symmetric(e) <==> Agreement.Symmetric(f))
  {
    hide Tree, Extent, Agreement.Symmetric, Arithmetic, Shaped, FlatOps;
    var xs, ys, ops :| FlatOps(xs, ops) && FlatOps(ys, ops) && e == Tree(xs, ops) && f == Tree(ys, ops);
    TreeValue(true, xs, ops);
    TreeValue(true, ys, ops);
    TreeExtent(xs, ys, ops);
    TreeSymmetric(xs, ops);
    TreeSymmetric(ys, ops);
  }

  // ----- another block of the same shape -----

  /** Literals for a tree's pattern with a written value; if the tree has a binary - or /,
      without a compiled one. */
  lemma Variant(e: Expr) returns (f: Expr, ys: seq<Operand>, ops: seq<Kind>)
    requires Arithmetic(e) && Shaped(e, 3)
    ensures SamePattern(e, f) && FlatOps(ys, ops) && f == Tree(ys, ops) && forall i :: 0 <= i < |ys| ==> ys[i].n >= 0
    ensures Arithmetic(f) && Value(true, f).Some? && (!Agreement.Symmetric(e) ==> Value(false, f) == None)
  {
    hide Tree, Agreement.Symmetric, Arithmetic, Shaped, FlatValue, Value;
    var xs;
    xs, ops := EveryTreeIsFlat(e);
    TreeSymmetric(xs, ops);
    if Agreement.Symmetric(e) {
      ys := Leading(ops, ZERO);
      LeadingValue(true, ops, ZERO, 0);
    } else {
      ys := OperandsThatDiffer(ops);
    }
    f := Tree(ys, ops);
    TreeValue(true, ys, ops);
    TreeValue(false, ys, ops);
  }

  /** The expression a statement evaluates. */
  function Evaluated(n: Node): (e: Expr)
    requires Straight(n) && (n.AsgnNode? || n.ExprNode?)
    ensures Arithmetic(e)
  {
    match n
    case AsgnNode(a) => a.expr
    case ExprNode(e) => if Arithmetic(e) then e else e.exprs[1]
  }

  lemma Evaluates(n: Node)
    requires Straight(n) && WellShaped(n) && (n.AsgnNode? || n.ExprNode?)
    ensures Shaped(Evaluated(n), 3) && (SymmetricNode(n) <==> Agreement.Symmetric(Evaluated(n)))
  {
    hide Agreement.Symmetric, Arithmetic;
    if n.ExprNode? && !Arithmetic(n.expr) {
      CallShape(n.expr);
    }
  }

  lemma CallShape(e: Expr)
    requires PrintsOne(e) && Shaped(e, 3)
    ensures Shaped(e.exprs[1], 3) && (Agreement.Symmetric(e) <==> Agreement.Symmetric(e.exprs[1]))
  {
    assert Shaped(e, 2) && !ShapedNode(e, 2);
    assert Shaped(e, 1) && !ShapedNode(e, 1);
    assert Shaped(e, 0);
    assert Agreement.Symmetric(e.exprs[0]);
  }

  /** The expressions a statement evaluates have values. */
  predicate Valued(written: bool, n: Node)
    requires Straight(n)
  {
    match n
    case AsgnNode(_) => Value(written, Evaluated(n)).Some?
    case ExprNode(_) => Value(written, Evaluated(n)).Some?
    case ForNode(_, _, _, block) => forall k :: 0 <= k < |block.nodes| ==> Valued(written, block.nodes[k])
    case _ => true
  }

  lemma {:induction false} HasMeaning(written: bool, n: Node, w: World)
    requires Straight(n)
    ensures Meaning(written, n, w).Some? <==> Valued(written, n)
    decreases n, 1
  {
    hide Value, Arithmetic;
    if n.ForNode? {
      HasBlockMeaning(written, n.block.nodes, 0, w);
    }
  }

  /** A block has a meaning exactly when each of its expressions has a value. */
  lemma {:induction false} HasBlockMeaning(written: bool, nodes: seq<Node>, i: nat, w: World)
    requires forall k :: 0 <= k < |nodes| ==> Straight(nodes[k])
    ensures BlockMeaning(written, nodes, i, w).Some? <==> forall k :: i <= k < |nodes| ==> Valued(written, nodes[k])
    decreases nodes, 0, |nodes| - i
  {
    hide Straight, Meaning, Valued;
    if i < |nodes| {
      HasMeaning(written, nodes[i], w);
      if Valued(written, nodes[i]) {
        HasBlockMeaning(written, nodes, i + 1, Meaning(written, nodes[i], w).value);
      }
    }
  }

  /** What another statement of the same shape shares with the first. */
  lemma {:induction false} SameKeeps(n: Node, m: Node)
    requires Straight(n) && WellShaped(n) && SameNode(n, m)
    ensures Straight(m) && WellShaped(m) && (SymmetricNode(m) <==> SymmetricNode(n))
    decreases n, 1
  {
    hide Arithmetic, Agreement.Symmetric, Extent, SamePattern;
    match n {
      case AsgnNode(a) => PatternKeeps(a.expr, m.asgn.expr);
      case ExprNode(e) =>
        if PrintsOne(e) {
          PatternKeeps(e.exprs[1], m.expr.exprs[1]);
          CallShape(e);
          SameCall(e, m.expr);
          CallShape(m.expr);
        } else {
          PatternKeeps(e, m.expr);
        }
      case ForNode(_, _, _, block) => SameBlockKeeps(block.nodes, m.block.nodes);
      case _ =>
    }
  }

  lemma {:induction false} SameBlockKeeps(nodes: seq<Node>, ms: seq<Node>)
    requires StraightBlock(nodes) && SameBlock(nodes, ms)
    ensures StraightBlock(ms)
    ensures forall k :: 0 <= k < |nodes| ==> (SymmetricNode(ms[k]) <==> SymmetricNode(nodes[k]))
    decreases nodes, 0
  {
    hide Straight, WellShaped, SameNode, SymmetricNode;
    forall k | 0 <= k < |nodes|
      ensures Straight(ms[k]) && WellShaped(ms[k]) && (SymmetricNode(ms[k]) <==> SymmetricNode(nodes[k]))
    {
      SameKeeps(nodes[k], ms[k]);
    }
  }

  lemma SameCall(e: Expr, f: Expr)
    requires PrintsOne(e) && PrintsOne(f) && f.exprs[0] == e.exprs[0]
    requires Shaped(e, 3) && Shaped(f.exprs[1], 3) && Extent(f.exprs[1]) == Extent(e.exprs[1])
    ensures Shaped(f, 3) && Extent(f) == Extent(e)
  {
    CallShape(e);
    assert Shaped(e, 0) by { assert Shaped(e, 2) && !ShapedNode(e, 2); assert Shaped(e, 1) && !ShapedNode(e, 1); }
    assert Shaped(f, 0);
    assert Shaped(f, 1);
    assert Shaped(f, 2);
    assert MaxExtent(f, 2) == MaxExtent(e, 2) == 4;
  }

  ghost predicate Spellable(ts: seq<Token>) {
    forall k :: 0 <= k < |ts| ==> L.Printable(ts[k])
  }

  lemma SpellableParts(a: seq<Token>, b: seq<Token>)
    ensures Spellable(a + b) <==> Spellable(a) && Spellable(b)
  {
    hide L.Printable;
    assert forall k :: 0 <= k < |a| ==> a[k] == (a + b)[k];
    assert forall k :: 0 <= k < |b| ==> b[k] == (a + b)[|a| + k];
  }

  lemma {:induction false} FlatSpellable(xs: seq<Operand>, ops: seq<Kind>)
    requires FlatOps(xs, ops) && forall i :: 0 <= i < |xs| ==> xs[i].n >= 0
    ensures Spellable(FlatTokens(xs, ops))
    decreases |ops|
  {
    if ops != [] {
      var last := [Plain(ops[|ops| - 1])] + OperandTokens(xs[|ops|]);
      FlatSpellable(xs[..|ops|], ops[..|ops| - 1]);
      SpellableParts(FlatTokens(xs[..|ops|], ops[..|ops| - 1]), last);
    }
  }

  lemma LiteralsSpellable(xs: seq<Operand>, ops: seq<Kind>)
    requires FlatOps(xs, ops) && forall i :: 0 <= i < |xs| ==> xs[i].n >= 0
    ensures Spellable(Yield(Tree(xs, ops)))
  {
    hide Spellable, Yield, Tree;
    FlatSpellable(xs, ops);
    TreeYield(xs, ops);
  }

  lemma CallSpellable(e: Expr)
    requires e.Funcall? && |e.exprs| == 2
    ensures Spellable(Yield(e)) <==> Spellable(Yield(e.exprs[0])) && Spellable(Yield(e.exprs[1]))
  {
    hide Yield;
    var call := [Plain(LParent)] + (YieldArgs(e, 1) + [Plain(RParent)]);
    CallTokens(e);
    SpellableParts(Yield(e.exprs[0]), call);
    SpellableParts([Plain(LParent)], YieldArgs(e, 1) + [Plain(RParent)]);
    SpellableParts(YieldArgs(e, 1), [Plain(RParent)]);
  }

  lemma CallTokens(e: Expr)
    requires e.Funcall? && |e.exprs| == 2
    ensures Yield(e) == Yield(e.exprs[0]) + ([Plain(LParent)] + (YieldArgs(e, 1) + [Plain(RParent)]))
    ensures YieldArgs(e, 1) == Yield(e.exprs[1])
  {
    assert YieldArgs(e, 2) == [];
  }

  /** Other literals for a statement: a value as written, and none as compiled if it has a
      binary - or /. */
  lemma {:induction false} OtherNode(n: Node) returns (m: Node)
    requires Straight(n) && WellShaped(n)
    ensures SameNode(n, m) && Straight(m) && Valued(true, m) && (!SymmetricNode(n) ==> !Valued(false, m))
    ensures Spellable(YieldNode(n)) ==> Spellable(YieldNode(m))
    decreases n, 1
  {
    hide Arithmetic, Agreement.Symmetric, SamePattern, Value, Shaped, Tree, Spellable, Yield, YieldNodes, YieldHeader;
    m := n;
    match n {
      case AsgnNode(a) =>
        Evaluates(n);
        var f, ys, ops := Variant(a.expr);
        LiteralsSpellable(ys, ops);
        SpellableParts([SymToken(a.name), Plain(Assign)], Yield(a.expr));
        SpellableParts([SymToken(a.name), Plain(Assign)], Yield(f));
        m := AsgnNode(Assignment(a.name, f));
      case ExprNode(e) =>
        Evaluates(n);
        var f, ys, ops := Variant(Evaluated(n));
        LiteralsSpellable(ys, ops);
        if Arithmetic(e) {
          m := ExprNode(f);
        } else {
          m := ExprNode(Funcall([e.exprs[0], f]));
          NotArithmetic(m.expr);
          CallSpellable(e);
          CallSpellable(m.expr);
        }
        NotArithmetic(e);
      case ForNode(_, _, _, block) =>
        var ms := OtherBlock(block.nodes);
        m := WithBlock(n, ms);
        BlockSpellable(block.nodes, 0);
        BlockSpellable(ms, 0);
        LoopSpellable(n);
        LoopSpellable(m);
      case _ =>
    }
  }

  lemma LoopSpellable(n: Node)
    requires n.ForNode?
    ensures Spellable(YieldNode(n)) <==>
            && Spellable([Plain(For)]) && Spellable(YieldHeader(n.init, n.cond, n.step))
            && Spellable([Plain(LBrace), Plain(Enl)]) && Spellable(YieldNodes(n.block.nodes, 0))
            && Spellable([Plain(RBrace)])
  {
    hide Spellable, YieldNodes, YieldHeader;
    var header := YieldHeader(n.init, n.cond, n.step);
    SpellableParts([Plain(For)], header + YieldBody(n.block));
    SpellableParts(header, YieldBody(n.block));
    SpellableParts([Plain(LBrace), Plain(Enl)], YieldNodes(n.block.nodes, 0) + [Plain(RBrace)]);
    SpellableParts(YieldNodes(n.block.nodes, 0), [Plain(RBrace)]);
  }

  lemma NotArithmetic(e: Expr)
    ensures e.Funcall? ==> !Arithmetic(e)
  {
  }

  lemma {:induction false} OtherBlock(nodes: seq<Node>) returns (ms: seq<Node>)
    requires StraightBlock(nodes)
    ensures SameBlock(nodes, ms) && StraightBlock(ms)
    ensures forall k :: 0 <= k < |ms| ==> Valued(true, ms[k]) && (!SymmetricNode(nodes[k]) ==> !Valued(false, ms[k]))
    ensures forall k :: 0 <= k < |ms| ==> Spellable(YieldNode(nodes[k])) ==> Spellable(YieldNode(ms[k]))
    decreases nodes, 0
  {
    hide Straight, WellShaped, SameNode, Valued, SymmetricNode, Spellable;
    ms := [];
    for k := 0 to |nodes|
      invariant |ms| == k
      invariant forall j :: 0 <= j < k ==>
                  && SameNode(nodes[j], ms[j]) && Straight(ms[j]) && WellShaped(ms[j]) && Valued(true, ms[j])
                  && (!SymmetricNode(nodes[j]) ==> !Valued(false, ms[j]))
                  && (Spellable(YieldNode(nodes[j])) ==> Spellable(YieldNode(ms[j])))
    {
      var m := OtherNode(nodes[k]);
      SameKeeps(nodes[k], m);
      ms := ms + [m];
    }
  }

  /** Among all blocks of one shape that have a meaning as written, the compiled meaning is
      the written one for all of them if and only if no statement has a binary - or /. */
  lemma BlockExact(nodes: seq<Node>)
    requires StraightBlock(nodes)
    ensures (forall ms ::
               SameBlock(nodes, ms) && StraightBlock(ms) && BlockMeaning(true, ms, 0, NOTHING_YET).Some? ==>
                 BlockMeaning(false, ms, 0, NOTHING_YET) == BlockMeaning(true, ms, 0, NOTHING_YET))
       <==> (forall k :: 0 <= k < |nodes| ==> SymmetricNode(nodes[k]))
  {
    hide Straight, WellShaped, SameNode, SymmetricNode, BlockMeaning;
    if forall k :: 0 <= k < |nodes| ==> SymmetricNode(nodes[k]) {
      forall ms | SameBlock(nodes, ms) && StraightBlock(ms)
        ensures BlockMeaning(false, ms, 0, NOTHING_YET) == BlockMeaning(true, ms, 0, NOTHING_YET)
      {
        forall k | 0 <= k < |ms| ensures SymmetricNode(ms[k]) {
          SameKeeps(nodes[k], ms[k]);
        }
        SymmetricBlock(ms, 0, NOTHING_YET);
      }
    } else {
      var ms := BlockDiffers(nodes);
    }
  }

  lemma {:induction false} BlockSpellable(nodes: seq<Node>, i: nat)
    ensures Spellable(YieldNodes(nodes, i)) <==> forall k :: i <= k < |nodes| ==> Spellable(YieldNode(nodes[k]))
    decreases |nodes| - i
  {
    hide YieldNode, Spellable;
    if i < |nodes| {
      BlockSpellable(nodes, i + 1);
      SpellableParts(YieldNode(nodes[i]), [Plain(Enl)] + YieldNodes(nodes, i + 1));
      SpellableParts([Plain(Enl)], YieldNodes(nodes, i + 1));
      assert Spellable([Plain(Enl)]) by { NewlineSpellable(); }
    } else {
      assert Spellable([]) by { NewlineSpellable(); }
    }
  }

  lemma NewlineSpellable()
    ensures Spellable([Plain(Enl)]) && Spellable([])
  {
  }

  lemma {:induction false} SameLayout(fw: FloatWord, sizes: Sizes, l: Layout, lab: nat, n: Node, m: Node)
    requires Straight(n) && WellShaped(n) && SameNode(n, m)
    ensures var a, b := CompileNode(fw, sizes, l, lab, n), CompileNode(fw, sizes, l, lab, m);
            a.layout == b.layout && a.lab == b.lab
    ensures NodeRoom(fw, sizes, l, lab, m) == NodeRoom(fw, sizes, l, lab, n)
    decreases n, 1
  {
    hide SamePattern, Arithmetic, CompileExpr, Moves, Extent;
    match n {
      case AsgnNode(a) => PatternKeeps(a.expr, m.asgn.expr);
      case ExprNode(e) =>
        if PrintsOne(e) {
          PatternKeeps(e.exprs[1], m.expr.exprs[1]);
          CallShape(e);
          SameCall(e, m.expr);
        } else {
          PatternKeeps(e, m.expr);
        }
      case ForNode(_, _, _, block) => SameLayouts(fw, sizes, l, lab, block.nodes, m.block.nodes, 0);
      case _ =>
    }
  }

  /** Blocks of one shape have the same variables and labels and need the same bytes. */
  lemma {:induction false} SameLayouts(
      fw: FloatWord, sizes: Sizes, l: Layout, lab: nat, nodes: seq<Node>, ms: seq<Node>, i: nat)
    requires StraightBlock(nodes) && SameBlock(nodes, ms)
    ensures var a, b := CompileNodes(fw, sizes, l, lab, nodes, i), CompileNodes(fw, sizes, l, lab, ms, i);
            a.layout == b.layout && a.lab == b.lab
    ensures BlockRoom(fw, sizes, l, lab, ms, i) == BlockRoom(fw, sizes, l, lab, nodes, i)
    decreases nodes, 0, |nodes| - i
  {
    hide Straight, WellShaped, SameNode, CompileNode, NodeRoom;
    if i < |nodes| {
      SameLayout(fw, sizes, l, lab, nodes[i], ms[i]);
      var a := CompileNode(fw, sizes, l, lab, nodes[i]);
      SameLayouts(fw, sizes, a.layout, a.lab, nodes, ms, i + 1);
    }
  }

  /** A block with a binary - or / somewhere, in a dead store or a bare expression even: some
      block of its shape means something as written and nothing as compiled. */
  lemma BlockDiffers(nodes: seq<Node>) returns (ms: seq<Node>)
    requires StraightBlock(nodes) && exists k :: 0 <= k < |nodes| && !SymmetricNode(nodes[k])
    ensures SameBlock(nodes, ms) && StraightBlock(ms)
    ensures BlockMeaning(true, ms, 0, NOTHING_YET).Some? && BlockMeaning(false, ms, 0, NOTHING_YET) == None
    ensures Spellable(YieldNodes(nodes, 0)) ==> Spellable(YieldNodes(ms, 0))
  {
    hide Straight, WellShaped, SameNode, SymmetricNode, BlockMeaning, Valued, Spellable, YieldNodes;
    ms := OtherBlock(nodes);
    BlockSpellable(nodes, 0);
    BlockSpellable(ms, 0);
    HasBlockMeaning(true, ms, 0, NOTHING_YET);
    HasBlockMeaning(false, ms, 0, NOTHING_YET);
  }

  lemma FunctionSpellable(n: Node, m: Node)
    requires n.FuncNode? && m.FuncNode? && m == WithBlock(n, m.block.nodes) && Spellable(YieldNode(n))
    requires Spellable(YieldNodes(n.block.nodes, 0)) ==> Spellable(YieldNodes(m.block.nodes, 0))
    ensures Spellable(YieldNode(m))
  {
    hide Spellable, YieldNodes, YieldParams, YieldResults;
    var head := [Plain(Func), SymToken(n.name), Plain(LParent)];
    var params, results := YieldParams(n.args), YieldResults(n.results);
    forall b: Block
      ensures Spellable(head + (params + ([Plain(RParent)] + (results + YieldBody(b))))) <==>
              Spellable(head) && Spellable(params) && Spellable([Plain(RParent)]) && Spellable(results)
              && Spellable([Plain(LBrace), Plain(Enl)]) && Spellable(YieldNodes(b.nodes, 0))
              && Spellable([Plain(RBrace)])
    {
      SpellableParts(head, params + ([Plain(RParent)] + (results + YieldBody(b))));
      SpellableParts(params, [Plain(RParent)] + (results + YieldBody(b)));
      SpellableParts([Plain(RParent)], results + YieldBody(b));
      SpellableParts(results, YieldBody(b));
      SpellableParts([Plain(LBrace), Plain(Enl)], YieldNodes(b.nodes, 0) + [Plain(RBrace)]);
      SpellableParts(YieldNodes(b.nodes, 0), [Plain(RBrace)]);
    }
    assert YieldNode(n) == head + (params + ([Plain(RParent)] + (results + YieldBody(n.block))));
    assert YieldNode(m) == head + (params + ([Plain(RParent)] + (results + YieldBody(m.block))));
  }
}
