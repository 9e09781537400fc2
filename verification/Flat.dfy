/** Flat expressions: integers, each with or without a minus sign, and operators between
    them. Their meaning by precedence alone, without a tree, and how it compares to the
    compiled value. */
module Flat {
  import opened Wrappers
  import opened Words
  import opened Tokens
  import opened Ast
  import opened ExprCompiler
  import opened Grammar
  import Agreement

  datatype Operand = Operand(negated: bool, n: i32)

  function OperandTokens(x: Operand): seq<Token> {
    if x.negated then [Plain(Kind.Sub), IntToken(x.n)] else [IntToken(x.n)]
  }

  function OperandValue(x: Operand): Option<i32> {
    if x.negated then ArithI32(Arith.Sub, 0, x.n) else Some(x.n)
  }

  predicate FlatOps(xs: seq<Operand>, ops: seq<Kind>) {
    |xs| == |ops| + 1 && forall k :: 0 <= k < |ops| ==> BinOp(ops[k]).Some?
  }

  /** The tokens of a flat expression as they are written. */
  function FlatTokens(xs: seq<Operand>, ops: seq<Kind>): seq<Token>
    requires |xs| == |ops| + 1
  {
    if ops == [] then OperandTokens(xs[0]) else
      FlatTokens(xs[..|ops|], ops[..|ops| - 1]) + ([Plain(ops[|ops| - 1])] + OperandTokens(xs[|ops|]))
  }

  predicate Additive(k: Kind) {
    k == Plus || k == Kind.Sub
  }

  /** The operator an expression is split at: its last + or -, or else its last operator. */
  function SplitAt(ops: seq<Kind>): (k: nat)
    requires ops != []
    ensures k < |ops|
    ensures forall i :: k < i < |ops| ==> !Additive(ops[i])
    ensures Additive(ops[k]) || (k == |ops| - 1 && forall i :: 0 <= i < |ops| ==> !Additive(ops[i]))
  {
    if Additive(ops[|ops| - 1]) || |ops| == 1 then |ops| - 1 else
      var k := SplitAt(ops[..|ops| - 1]);
      if Additive(ops[k]) then k else |ops| - 1
  }

  /** One operator between a left and a right value: as written, or with the operands
      swapped as the compiler has them. */
  function Combine(written: bool, op: Arith, left: i32, right: i32): Option<i32> {
    if written then ArithI32(op, left, right) else ArithI32(op, right, left)
  }

  /** Both sides and the operator between them. */
  function Join(written: bool, k: Kind, left: Option<i32>, right: Option<i32>): Option<i32>
    requires BinOp(k).Some?
  {
    if left.None? || right.None? then None else Combine(written, BinOp(k).value, left.value, right.value)
  }

  /** The meaning by precedence: * and / bind tighter than + and -, and operators of one
      precedence associate to the left. */
  function FlatValue(written: bool, xs: seq<Operand>, ops: seq<Kind>): Option<i32>
    requires FlatOps(xs, ops)
    decreases |ops|
  {
    if ops == [] then OperandValue(xs[0]) else
      var k := SplitAt(ops);
      Join(written, ops[k], FlatValue(written, xs[..k + 1], ops[..k]), FlatValue(written, xs[k + 1..], ops[k + 1..]))
  }

  // ----- when the compiled value is the written one -----

  const ZERO: Operand := Operand(false, 0)

  /** `head` first, 0 at the head of every later term, and 1 elsewhere. */
  function Leading(ops: seq<Kind>, head: Operand): seq<Operand> {
    seq(|ops| + 1, i requires 0 <= i <= |ops| =>
      if i == 0 then head else Operand(false, if Additive(ops[i - 1]) then 0 else 1))
  }

  lemma LeadingSplit(ops: seq<Kind>, head: Operand, k: nat)
    requires k < |ops|
    ensures Leading(ops, head)[..k + 1] == Leading(ops[..k], head)
    ensures Leading(ops, head)[k + 1..] ==
            Leading(ops[k + 1..], Operand(false, if Additive(ops[k]) then 0 else 1))
  {
  }

  lemma OneOperand(written: bool, xs: seq<Operand>)
    requires |xs| == 1
    ensures FlatValue(written, xs, []) == OperandValue(xs[0])
  {
  }

  lemma FlatSplit(written: bool, xs: seq<Operand>, ops: seq<Kind>)
    requires FlatOps(xs, ops) && ops != []
    ensures var k := SplitAt(ops);
            FlatValue(written, xs, ops) ==
            Join(written, ops[k],
                 FlatValue(written, xs[..k + 1], ops[..k]), FlatValue(written, xs[k + 1..], ops[k + 1..]))
  {
    hide Join, SplitAt, BinOp, OperandValue;
  }

  lemma JoinNeutral(written: bool, k: Kind, v: i32)
    requires BinOp(k).Some? && (written || (k != Slash && (k == Kind.Sub ==> v == 0)))
    ensures Join(written, k, Some(v), Some(if Additive(k) then 0 else 1)) == Some(v)
  {
  }

  /** The head's value remains: what follows is 0 added or subtracted, and 1 multiplied or
      divided by. Compiled, that takes that there is no division, and no subtraction either
      unless the head is 0. */
  lemma {:induction false} LeadingValue(written: bool, ops: seq<Kind>, head: Operand, v: i32)
    requires OperandValue(head) == Some(v) && FlatOps(Leading(ops, head), ops)
    requires written || (Slash !in ops && (v == 0 || Kind.Sub !in ops))
    ensures FlatValue(written, Leading(ops, head), ops) == Some(v)
    decreases |ops|
  {
    hide FlatValue, SplitAt, Join, BinOp;
    if ops == [] {
      OneOperand(written, Leading(ops, head));
    } else {
      var k := SplitAt(ops);
      FlatSplit(written, Leading(ops, head), ops);
      LeadingSplit(ops, head, k);
      LeadingValue(written, ops[..k], head, v);
      var u := if Additive(ops[k]) then 0 else 1;
      LeadingValue(written, ops[k + 1..], Operand(false, u), u);
      JoinNeutral(written, ops[k], v);
    }
  }

  /** A division somewhere: compiled, it divides by the 0 at the head of its term. */
  lemma {:induction false} DivisionUndefined(ops: seq<Kind>)
    requires FlatOps(Leading(ops, ZERO), ops) && Slash in ops
    ensures FlatValue(false, Leading(ops, ZERO), ops) == None
    decreases |ops|
  {
    hide FlatValue, SplitAt, BinOp;
    var k := SplitAt(ops);
    FlatSplit(false, Leading(ops, ZERO), ops);
    LeadingSplit(ops, ZERO, k);
    assert ops == ops[..k] + [ops[k]] + ops[k + 1..];
    if Slash in ops[..k] {
      DivisionUndefined(ops[..k]);
    } else if ops[k] == Slash {
      assert ops[k + 1..] == [];
      LeadingValue(false, [], Operand(false, 1), 1);
      DividedByZero(ops[..k]);
    } else {
      assert Additive(ops[k]);
      DivisionUndefined(ops[k + 1..]);
    }
  }

  lemma DividedByZero(ops: seq<Kind>)
    requires FlatOps(Leading(ops, ZERO), ops) && Slash !in ops
    ensures Join(false, Slash, FlatValue(false, Leading(ops, ZERO), ops), Some(1)) == None
  {
    hide FlatValue;
    LeadingValue(false, ops, ZERO, 0);
  }

  const MINUS_ONE: Operand := Operand(true, 1)
  const GREATEST: Operand := Operand(false, I32_MAX)

  /** -1 at the head, the greatest int after the `s`-th operator. */
  function Edge(ops: seq<Kind>, s: nat): seq<Operand>
    requires s < |ops|
  {
    Leading(ops, MINUS_ONE)[s + 1 := GREATEST]
  }

  lemma Multiplicative(ops: seq<Kind>)
    requires forall k :: 0 <= k < |ops| ==> BinOp(ops[k]).Some?
    ensures Slash !in ops ==> forall k :: 0 <= k < |ops| ==> ops[k] in {Plus, Kind.Sub, Star}
  {
  }

  /** Without division, at the first subtraction `s`: as written, the least int; compiled,
      one more than the greatest. */
  lemma {:induction false} SubtractionUndefined(ops: seq<Kind>, s: nat)
    requires s < |ops| && ops[s] == Kind.Sub && (forall k :: 0 <= k < s ==> ops[k] != Kind.Sub)
    requires FlatOps(Edge(ops, s), ops) && Slash !in ops
    ensures FlatValue(true, Edge(ops, s), ops) == Some(I32_MIN)
    ensures FlatValue(false, Edge(ops, s), ops) == None
    decreases |ops|
  {
    hide FlatValue, SplitAt, Join, BinOp;
    var xs, k := Edge(ops, s), SplitAt(ops);
    FlatSplit(true, xs, ops);
    FlatSplit(false, xs, ops);
    LeadingSplit(ops, MINUS_ONE, k);
    Multiplicative(ops);
    if k == s {
      assert xs[..k + 1] == Leading(ops[..k], MINUS_ONE);
      assert xs[k + 1..] == Leading(ops[k + 1..], GREATEST);
      Greatest(ops, s);
    } else {
      assert xs[..k + 1] == Edge(ops[..k], s);
      assert xs[k + 1..] == Leading(ops[k + 1..], ZERO);
      SubtractionUndefined(ops[..k], s);
      LeadingValue(true, ops[k + 1..], ZERO, 0);
      JoinNeutral(true, ops[k], I32_MIN);
      JoinNothing(ops[k], FlatValue(false, Leading(ops[k + 1..], ZERO), ops[k + 1..]));
    }
  }

  lemma Greatest(ops: seq<Kind>, s: nat)
    requires s < |ops| && ops[s] == Kind.Sub && (forall k :: 0 <= k < s ==> ops[k] in {Plus, Star})
    requires forall k :: s < k < |ops| ==> ops[k] == Star
    ensures var left, right := Leading(ops[..s], MINUS_ONE), Leading(ops[s + 1..], GREATEST);
            && Join(true, ops[s],
                    FlatValue(true, left, ops[..s]), FlatValue(true, right, ops[s + 1..])) == Some(I32_MIN)
            && Join(false, ops[s],
                    FlatValue(false, left, ops[..s]), FlatValue(false, right, ops[s + 1..])) == None
  {
    hide FlatValue;
    LeadingValue(true, ops[..s], MINUS_ONE, -1);
    LeadingValue(false, ops[..s], MINUS_ONE, -1);
    LeadingValue(true, ops[s + 1..], GREATEST, I32_MAX);
    LeadingValue(false, ops[s + 1..], GREATEST, I32_MAX);
  }

  lemma JoinNothing(k: Kind, right: Option<i32>)
    requires BinOp(k).Some?
    ensures Join(false, k, None, right) == None
  {
  }

  function FirstOf(ops: seq<Kind>, k: Kind): (i: nat)
    requires k in ops
    ensures i < |ops| && ops[i] == k && forall j :: 0 <= j < i ==> ops[j] != k
  {
    if ops[0] == k then 0 else FirstOf(ops[1..], k) + 1
  }

  /** For operators among which there is a - or a /, some operands have a defined value as
      written and none as compiled. The literals are those a source can spell. */
  lemma OperandsThatDiffer(ops: seq<Kind>) returns (xs: seq<Operand>)
    requires forall k :: 0 <= k < |ops| ==> BinOp(ops[k]).Some?
    requires exists k :: 0 <= k < |ops| && ops[k] !in {Plus, Star}
    ensures FlatOps(xs, ops) && (forall i :: 0 <= i < |xs| ==> xs[i].n >= 0)
    ensures FlatValue(true, xs, ops).Some? && FlatValue(false, xs, ops) == None
  {
    hide FlatValue;
    if Slash in ops {
      xs := Leading(ops, ZERO);
      LeadingValue(true, ops, ZERO, 0);
      DivisionUndefined(ops);
    } else {
      var k :| 0 <= k < |ops| && ops[k] !in {Plus, Star};
      assert ops[k] == Kind.Sub && forall i :: 0 <= i < |ops| ==> ops[i] in ops;
      var s := FirstOf(ops, Kind.Sub);
      xs := Edge(ops, s);
      SubtractionUndefined(ops, s);
    }
  }

  lemma {:induction false} SymmetricFlat(xs: seq<Operand>, ops: seq<Kind>)
    requires |xs| == |ops| + 1 && forall k :: 0 <= k < |ops| ==> ops[k] in {Plus, Star}
    ensures FlatValue(false, xs, ops) == FlatValue(true, xs, ops)
    decreases |ops|
  {
    hide FlatValue, SplitAt;
    if ops == [] {
      OneOperand(false, xs);
      OneOperand(true, xs);
    } else {
      var k := SplitAt(ops);
      FlatSplit(false, xs, ops);
      FlatSplit(true, xs, ops);
      SymmetricFlat(xs[..k + 1], ops[..k]);
      SymmetricFlat(xs[k + 1..], ops[k + 1..]);
      var left, right := FlatValue(true, xs[..k + 1], ops[..k]), FlatValue(true, xs[k + 1..], ops[k + 1..]);
      if left.Some? && right.Some? {
        Agreement.ArithSymmetric(BinOp(ops[k]).value, left.value, right.value);
      }
    }
  }

  /** Exactly which operator patterns compile to what is written: those without - and /.
      For every other pattern some operands, with a defined value, come out different. */
  lemma PatternExact(ops: seq<Kind>)
    requires forall k :: 0 <= k < |ops| ==> BinOp(ops[k]).Some?
    ensures (forall xs :: FlatOps(xs, ops) && FlatValue(true, xs, ops).Some? ==>
                            FlatValue(false, xs, ops) == FlatValue(true, xs, ops))
       <==> (forall k :: 0 <= k < |ops| ==> ops[k] in {Plus, Star})
  {
    hide FlatValue, SplitAt;
    if forall k :: 0 <= k < |ops| ==> ops[k] in {Plus, Star} {
      forall xs | FlatOps(xs, ops) ensures FlatValue(false, xs, ops) == FlatValue(true, xs, ops) {
        SymmetricFlat(xs, ops);
      }
    } else {
      var xs := OperandsThatDiffer(ops);
    }
  }
}
