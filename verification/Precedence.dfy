/** The expression parser on short token lists: which tokens are operands and operators, and
    how tightly each operator binds. */
module Precedence {
  import opened Tokens
  import opened Ast
  import opened ExprCompiler
  import opened Grammar
  import opened ExprParser
  import PP = ExprParserProofs

  predicate Operand(t: Token) {
    t.Kind() in {Int, Float, Str, True, False, Symbol}
  }

  lemma AtomShaped(t: Token)
    requires Operand(t)
    ensures forall level :: 0 <= level <= 3 ==> Shaped(Atom(t), level)
    ensures Yield(Atom(t)) == [t]
  {
    assert Shaped(Atom(t), 0);
    assert Shaped(Atom(t), 1);
    assert Shaped(Atom(t), 2);
  }

  lemma TwoShaped(k: Kind, x: Expr, y: Expr, level: nat)
    requires 1 <= level <= 3 && k in OpsAt(level) && Shaped(x, level - 1) && Shaped(y, level - 1)
    ensures forall higher :: level <= higher <= 3 ==> Shaped(Ops([k], [x, y]), higher)
    ensures Yield(Ops([k], [x, y])) == Yield(x) + [Plain(k)] + Yield(y)
  {
    var e := Ops([k], [x, y]);
    assert ShapedNode(e, level);
    assert Shaped(e, level);
    assert level == 1 ==> Shaped(e, 2);
    assert YieldOps(e, 1) == [];
  }

  lemma ThreeShaped(k: Kind, m: Kind, x: Expr, y: Expr, z: Expr, level: nat)
    requires 1 <= level <= 2 && k in OpsAt(level) && m in OpsAt(level)
    requires Shaped(x, level - 1) && Shaped(y, level - 1) && Shaped(z, level - 1)
    ensures Shaped(Ops([k, m], [x, y, z]), 3)
  {
    hide OpsAt;
    var e := Ops([k, m], [x, y, z]);
    assert ShapedNode(e, level);
    assert Shaped(e, level);
    assert level == 1 ==> Shaped(e, 2);
  }

  lemma YieldThree(k: Kind, m: Kind, x: Expr, y: Expr, z: Expr)
    ensures Yield(Ops([k, m], [x, y, z])) == Yield(x) + [Plain(k)] + Yield(y) + [Plain(m)] + Yield(z)
  {
    var e := Ops([k, m], [x, y, z]);
    var all := Yield(e);
    hide Yield;
    assert all == Yield(x) + YieldOps(e, 0) by { FirstYield(e); }
    assert YieldOps(e, 2) == [];
    assert YieldOps(e, 1) == [Plain(m)] + (Yield(z) + []);
    assert YieldOps(e, 0) == [Plain(k)] + (Yield(y) + YieldOps(e, 1));
  }

  lemma FirstYield(e: Expr)
    requires e.Ops? && |e.exprs| > 1
    ensures Yield(e) == Yield(e.exprs[0]) + YieldOps(e, 0)
  {
  }

  /** `ts` is read as this tree, up to tokens that do not go on with it. */
  lemma Reads(ts: seq<Token>, e: Expr, rest: seq<Token>)
    requires Shaped(e, 3) && Yield(e) == ts && PP.Stops(rest, 3)
    ensures ParseExpr(ts + rest) == Ok(e, rest)
  {
    hide Shaped, Yield, Parse, PP.Stops;
    PP.Complete(e, 3, rest);
  }

  lemma NothingStops()
    ensures PP.Stops([], 3)
  {
  }

  /** A token alone is an expression exactly when it is a literal or a name. */
  lemma OperandExact(t: Token)
    ensures ParseExpr([t]) == if Operand(t) then Ok(Atom(t), []) else Err(false)
  {
    if Operand(t) {
      AtomShaped(t);
      Reads([t], Atom(t), []);
      assert [t] + [] == [t];
    } else if t.Kind() != Kind.Sub {
      PP.NoExpression([t], 3);
    } else {
      assert [t][1..] == [] && ParseToken([]) == Err(false);
      assert ParseAtomic([t]) == Err(false);
      assert Parse([t], 1) == Err(false);
      assert Parse([t], 2) == Err(false);
    }
  }

  /** Between two operands, these seven tokens are operators, and no others. */
  lemma OperatorExact(x: Token, k: Kind, y: Token)
    requires Operand(x) && Operand(y)
    ensures ParseExpr([x, Plain(k), y]) ==
            if k in {Plus, Kind.Sub, Star, Slash, Less, Greater, Equal} then Ok(Ops([k], [Atom(x), Atom(y)]), [])
            else Ok(Atom(x), [Plain(k), y])
  {
    hide Parse;
    AtomShaped(x);
    AtomShaped(y);
    if k in {Plus, Kind.Sub, Star, Slash, Less, Greater, Equal} {
      TwoShaped(k, Atom(x), Atom(y), if k in {Star, Slash} then 1 else if k in {Plus, Kind.Sub} then 2 else 3);
      Reads([x, Plain(k), y], Ops([k], [Atom(x), Atom(y)]), []);
      assert [x, Plain(k), y] + [] == [x, Plain(k), y];
    } else if k != LParent {
      Reads([x], Atom(x), [Plain(k), y]);
      assert [x] + [Plain(k), y] == [x, Plain(k), y];
    } else {
      OpenCall(x, y);
    }
  }

  /** A call that is not closed is only its name. */
  lemma OpenCall(x: Token, y: Token)
    requires Operand(x) && Operand(y)
    ensures ParseExpr([x, Plain(LParent), y]) == Ok(Atom(x), [Plain(LParent), y])
  {
    hide Parse, ParseFuncall, ParseArgs;
    var ts, rest := [x, Plain(LParent), y], [Plain(LParent), y];
    OperandExact(y);
    PP.ParseArgsLast([y], Atom(y), []);
    assert ts[1..] == rest && rest[1..] == [y];
    NotClosed(ts, rest, [Atom(y)]);
    assert Parse(ts, 0) == Ok(Atom(x), rest) by { AtomicName(ts, rest); }
    PP.ParseDown(ts, 1, Atom(x), rest);
    PP.ParseDown(ts, 2, Atom(x), rest);
    PP.ParseDown(ts, 3, Atom(x), rest);
  }

  lemma NotClosed(ts: seq<Token>, rest: seq<Token>, args: seq<Expr>)
    requires ts != [] && Operand(ts[0]) && ts[1..] == rest && rest != [] && rest[0] == Plain(LParent)
    requires ParseArgs(rest[1..]) == (args, [])
    ensures ParseFuncall(ts) == Err(false)
  {
    hide ParseArgs;
  }

  lemma AtomicName(ts: seq<Token>, rest: seq<Token>)
    requires ts != [] && Operand(ts[0]) && ts[1..] == rest && ParseFuncall(ts) == Err(false)
    ensures Parse(ts, 0) == Ok(Atom(ts[0]), rest)
  {
    hide ParseFuncall;
  }

  /** Products bind tighter than sums, and sums tighter than comparisons. */
  lemma Binding(x: Token, y: Token, z: Token, sum: Kind, product: Kind, comparison: Kind)
    requires Operand(x) && Operand(y) && Operand(z)
    requires sum in {Plus, Kind.Sub} && product in {Star, Slash} && comparison in {Less, Greater, Equal}
    ensures var a, b, c := Atom(x), Atom(y), Atom(z);
            && ParseExpr([x, Plain(sum), y, Plain(product), z]) == Ok(Ops([sum], [a, Ops([product], [b, c])]), [])
            && ParseExpr([x, Plain(product), y, Plain(sum), z]) == Ok(Ops([sum], [Ops([product], [a, b]), c]), [])
            && ParseExpr([x, Plain(comparison), y, Plain(sum), z])
               == Ok(Ops([comparison], [a, Ops([sum], [b, c])]), [])
            && ParseExpr([x, Plain(sum), y, Plain(comparison), z])
               == Ok(Ops([comparison], [Ops([sum], [a, b]), c]), [])
            && ParseExpr([x, Plain(comparison), y, Plain(product), z])
               == Ok(Ops([comparison], [a, Ops([product], [b, c])]), [])
  {
    var a, b, c := Atom(x), Atom(y), Atom(z);
    TighterRight(x, sum, y, product, z, 2, 1);
    TighterLeft(x, product, y, sum, z, 1, 2);
    TighterRight(x, comparison, y, sum, z, 3, 2);
    TighterLeft(x, sum, y, comparison, z, 2, 3);
    TighterRight(x, comparison, y, product, z, 3, 1);
  }

  lemma TighterRight(x: Token, k: Kind, y: Token, m: Kind, z: Token, level: nat, inner: nat)
    requires Operand(x) && Operand(y) && Operand(z) && 1 <= inner < level <= 3 && k in OpsAt(level) && m in OpsAt(inner)
    ensures ParseExpr([x, Plain(k), y, Plain(m), z]) == Ok(Ops([k], [Atom(x), Ops([m], [Atom(y), Atom(z)])]), [])
  {
    hide Shaped, Yield, Parse, OpsAt, PP.Stops;
    AtomShaped(x);
    AtomShaped(y);
    AtomShaped(z);
    var e := Ops([m], [Atom(y), Atom(z)]);
    TwoShaped(m, Atom(y), Atom(z), inner);
    TwoShaped(k, Atom(x), e, level);
    NothingStops();
    var ts := [x, Plain(k), y, Plain(m), z];
    assert ts == [x] + [Plain(k)] + ([y] + [Plain(m)] + [z]) && ts + [] == ts;
    Reads(ts, Ops([k], [Atom(x), e]), []);
  }

  lemma TighterLeft(x: Token, m: Kind, y: Token, k: Kind, z: Token, inner: nat, level: nat)
    requires Operand(x) && Operand(y) && Operand(z) && 1 <= inner < level <= 3 && k in OpsAt(level) && m in OpsAt(inner)
    ensures ParseExpr([x, Plain(m), y, Plain(k), z]) == Ok(Ops([k], [Ops([m], [Atom(x), Atom(y)]), Atom(z)]), [])
  {
    hide Shaped, Yield, Parse, OpsAt, PP.Stops;
    AtomShaped(x);
    AtomShaped(y);
    AtomShaped(z);
    var e := Ops([m], [Atom(x), Atom(y)]);
    TwoShaped(m, Atom(x), Atom(y), inner);
    TwoShaped(k, e, Atom(z), level);
    NothingStops();
    var ts := [x, Plain(m), y, Plain(k), z];
    assert ts == [x] + [Plain(m)] + [y] + [Plain(k)] + [z] && ts + [] == ts;
    Reads(ts, Ops([k], [e, Atom(z)]), []);
  }

  /** Operators of one level stand in one node, in order. */
  lemma Chaining(x: Token, k: Kind, y: Token, m: Kind, z: Token)
    requires Operand(x) && Operand(y) && Operand(z)
    requires {k, m} <= {Plus, Kind.Sub} || {k, m} <= {Star, Slash}
    ensures ParseExpr([x, Plain(k), y, Plain(m), z]) == Ok(Ops([k, m], [Atom(x), Atom(y), Atom(z)]), [])
  {
    hide Shaped, Yield, Parse, PP.Stops;
    AtomShaped(x);
    AtomShaped(y);
    AtomShaped(z);
    assert k in {k, m} && m in {k, m};
    ThreeShaped(k, m, Atom(x), Atom(y), Atom(z), if k in {Plus, Kind.Sub} then 2 else 1);
    YieldThree(k, m, Atom(x), Atom(y), Atom(z));
    NothingStops();
    var ts := [x, Plain(k), y, Plain(m), z];
    assert ts == [x] + [Plain(k)] + [y] + [Plain(m)] + [z] && ts + [] == ts;
    Reads(ts, Ops([k, m], [Atom(x), Atom(y), Atom(z)]), []);
  }

  /** A comparison has two operands: a second comparison is left over. */
  lemma NoChaining(x: Token, k: Kind, y: Token, m: Kind, z: Token)
    requires Operand(x) && Operand(y) && {k, m} <= {Less, Greater, Equal}
    ensures ParseExpr([x, Plain(k), y, Plain(m), z]) == Ok(Ops([k], [Atom(x), Atom(y)]), [Plain(m), z])
  {
    hide Shaped, Yield, Parse;
    AtomShaped(x);
    AtomShaped(y);
    assert k in {k, m} && m in {k, m};
    var ts, rest, last := [x, Plain(k), y, Plain(m), z], [Plain(k), y, Plain(m), z], [Plain(m), z];
    assert [x] + rest == ts && [y] + last == rest[1..];
    PP.Complete(Atom(x), 2, rest);
    PP.Complete(Atom(y), 2, last);
    PP.ParseCompare(ts, Atom(x), rest, Atom(y), last);
  }
}
