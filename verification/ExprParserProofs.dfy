/** The expression parser recognises exactly the grammar. */
module ExprParserProofs {
  import opened Tokens
  import opened Ast
  import opened ExprCompiler
  import opened Grammar
  import opened ExprParser
  import opened Loose

  // ----- completeness -----

  /** What follows an expression of this level does not continue it. */
  predicate Stops(ts: seq<Token>, level: nat) {
    Head(ts) != LParent && forall l :: 1 <= l <= level && l <= 3 ==> Head(ts) !in OpsAt(l)
  }

  // The cases of the parser's functions, one lemma each.

  lemma ParseDown(ts: seq<Token>, level: nat, e0: Expr, rest: seq<Token>)
    requires 1 <= level <= 3 && Parse(ts, level - 1) == Ok(e0, rest) && Head(rest) !in OpsAt(level)
    ensures Parse(ts, level) == Ok(e0, rest)
  {
  }

  lemma ParseCompare(ts: seq<Token>, e0: Expr, rest: seq<Token>, e1: Expr, last: seq<Token>)
    requires Parse(ts, 2) == Ok(e0, rest) && Head(rest) in OpsAt(3) && Parse(Advance(rest), 2) == Ok(e1, last)
    ensures Parse(ts, 3) == Ok(Ops([Head(rest)], [e0, e1]), last)
  {
  }

  lemma ParseChain(ts: seq<Token>, level: nat, e0: Expr, rest: seq<Token>,
                   ops: seq<Kind>, exprs: seq<Expr>, last: seq<Token>)
    requires 1 <= level <= 2 && Parse(ts, level - 1) == Ok(e0, rest) && Head(rest) in OpsAt(level)
    requires ParseRest(rest, level) == Ok((ops, exprs), last)
    ensures Parse(ts, level) == Ok(Ops(ops, [e0] + exprs), last)
  {
    hide ParseRest;
  }

  lemma ParseRestMore(ts: seq<Token>, level: nat, e: Expr, rest: seq<Token>,
                      ops: seq<Kind>, exprs: seq<Expr>, last: seq<Token>)
    requires 1 <= level <= 2 && Head(ts) in OpsAt(level) && Parse(Advance(ts), level - 1) == Ok(e, rest)
    requires ParseRest(rest, level) == Ok((ops, exprs), last)
    ensures ParseRest(ts, level) == Ok(([Head(ts)] + ops, [e] + exprs), last)
  {
    hide Parse;
  }

  lemma ParseArgsNone(ts: seq<Token>)
    requires Parse(ts, 3).Err?
    ensures ParseArgs(ts) == ([], ts)
  {
    hide Parse;
  }

  lemma ParseArgsLast(ts: seq<Token>, e: Expr, rest: seq<Token>)
    requires Parse(ts, 3) == Ok(e, rest) && Head(rest) != Comma
    ensures ParseArgs(ts) == ([e], rest)
  {
    hide Parse;
  }

  lemma ParseArgsMore(ts: seq<Token>, e: Expr, rest: seq<Token>, es: seq<Expr>, last: seq<Token>)
    requires Parse(ts, 3) == Ok(e, rest) && Head(rest) == Comma && ParseArgs(Advance(rest)) == (es, last)
    ensures ParseArgs(ts) == ([e] + es, last)
  {
    hide Parse;
  }

  lemma ParseAtomicToken(ts: seq<Token>)
    requires LiteralKind(Head(ts)) && Head(Advance(ts)) != LParent
    ensures Parse(ts, 0) == Ok(Atom(ts[0]), ts[1..])
  {
    assert ParseFuncall(ts) == Err(false);
  }

  lemma ParseAtomicNegation(ts: seq<Token>)
    requires Head(ts) == Sub
    ensures Parse(ts, 0) ==
            if LiteralKind(Head(Advance(ts))) then Ok(Ops([Kind.Sub], [Atom(ts[1])]), ts[2..]) else Err(false)
  {
    assert ParseFuncall(ts) == Err(false);
    assert |ts| >= 2 ==> Advance(ts)[1..] == ts[2..];
  }

  lemma ParseAtomicCall(ts: seq<Token>, args: seq<Expr>, rest: seq<Token>)
    requires LiteralKind(Head(ts)) && Head(Advance(ts)) == LParent
    requires ParseArgs(Advance(Advance(ts))) == (args, rest) && Head(rest) == RParent
    ensures Parse(ts, 0) == Ok(Funcall([Atom(ts[0])] + args), Advance(rest))
  {
    hide ParseArgs;
    assert ParseFuncall(ts) == Ok(Funcall([Atom(ts[0])] + args), Advance(rest));
  }

  /** Only a literal or a minus sign starts an expression. */
  lemma {:induction false} NoExpression(ts: seq<Token>, level: nat)
    requires level <= 3 && !LiteralKind(Head(ts)) && Head(ts) != Sub
    ensures Parse(ts, level) == Err(false)
    decreases level
  {
    if level > 0 {
      NoExpression(ts, level - 1);
    } else {
      assert ParseFuncall(ts) == Err(false);
    }
  }

  /** Every tree of the grammar is parsed back from every way to write it, whatever follows,
      and parsing stops right after it. */
  lemma {:induction false} Accepts(c: seq<Token>, e: Expr, level: nat, rest: seq<Token>)
    requires level <= 3 && Shaped(e, level) && Matches(c, LooseExpr(e)) && Stops(rest, level)
    ensures Parse(c + rest, level) == Ok(e, rest)
    decreases e, 1, level
  {
    hide LooseExpr, Matches, Parse, ParseRest, Shaped;
    if level == 0 {
      AcceptsAtomic(c, e, rest);
    } else if Shaped(e, level - 1) {
      Accepts(c, e, level - 1, rest);
      ParseDown(c + rest, level, e, rest);
    } else {
      NodeOf(e, level);
      AcceptsNode(c, e, level, rest);
    }
  }

  lemma {:induction false} AcceptsNode(c: seq<Token>, e: Expr, level: nat, rest: seq<Token>)
    requires 1 <= level <= 3 && ShapedNode(e, level) && Stops(rest, level)
    requires Matches(c, LooseExpr(e.exprs[0]) + LooseOps(e, 0))
    ensures Parse(c + rest, level) == Ok(e, rest)
    decreases e, 0, |e.ops| + 1
  {
    hide LooseExpr, LooseOps, Matches, Parse, ParseRest, Shaped;
    var e0 := e.exprs[0];
    var a, d := MatchSplit(c, LooseExpr(e0), LooseOps(e, 0));
    FirstOp(d, e, 0, level, rest);
    assert c + rest == a + (d + rest);
    Accepts(a, e0, level - 1, d + rest);
    if level == 3 {
      LastOp(d, e, 0);
      Accepts(d[1..], e.exprs[1], 2, rest);
      assert Advance(d + rest) == d[1..] + rest;
      ParseCompare(c + rest, e0, d + rest, e.exprs[1], rest);
      assert e.ops == [e.ops[0]] && e.exprs == [e0, e.exprs[1]];
    } else {
      AcceptsRest(d, e, 0, level, rest);
      ParseChain(c + rest, level, e0, d + rest, e.ops, e.exprs[1..], rest);
      assert e.exprs == [e0] + e.exprs[1..];
    }
  }

  lemma NodeOf(e: Expr, level: nat)
    requires 1 <= level <= 3 && Shaped(e, level) && !Shaped(e, level - 1)
    ensures ShapedNode(e, level) && !Negation(e) && Yield(e) == Yield(e.exprs[0]) + YieldOps(e, 0)
    ensures LooseExpr(e) == LooseExpr(e.exprs[0]) + LooseOps(e, 0)
  {
  }

  /** Written operators start with the operator, which ends what is before them. */
  lemma FirstOp(d: seq<Token>, e: Expr, i: nat, level: nat, rest: seq<Token>)
    requires 1 <= level <= 3 && ShapedNode(e, level) && i <= |e.ops| && Stops(rest, level) && Matches(d, LooseOps(e, i))
    ensures Stops(d + rest, level - 1)
    ensures if i < |e.ops| then d != [] && d[0] == Plain(e.ops[i]) && Head(d + rest) == e.ops[i] else d == []
  {
    hide LooseExpr, Matches, Shaped;
    if i < |e.ops| {
      MatchToken(d, Plain(e.ops[i]), LooseExpr(e.exprs[i + 1]) + LooseOps(e, i + 1));
    } else {
      NoneMatches(d);
      assert d + rest == rest;
    }
  }

  lemma NoneMatches(d: seq<Token>)
    requires Matches(d, [])
    ensures d == []
  {
  }

  lemma LastOp(d: seq<Token>, e: Expr, i: nat)
    requires e.Ops? && |e.exprs| == |e.ops| + 1 && i + 1 == |e.ops| && Matches(d, LooseOps(e, i))
    ensures d != [] && Matches(d[1..], LooseExpr(e.exprs[i + 1]))
  {
    hide LooseExpr, Matches;
    assert LooseOps(e, i + 1) == [];
    assert LooseExpr(e.exprs[i + 1]) + [] == LooseExpr(e.exprs[i + 1]);
    MatchToken(d, Plain(e.ops[i]), LooseExpr(e.exprs[i + 1]));
  }

  lemma {:induction false} AcceptsAtomic(c: seq<Token>, e: Expr, rest: seq<Token>)
    requires Shaped(e, 0) && Matches(c, LooseExpr(e)) && Stops(rest, 0)
    ensures Parse(c + rest, 0) == Ok(e, rest)
    decreases e, 0, if e.Funcall? then |e.exprs| + 1 else 0
  {
    hide Parse, Matches, LooseArgs;
    match e {
      case Atom(v) =>
        MatchOne(c, v);
        assert ([v] + rest)[1..] == rest;
        ParseAtomicToken([v] + rest);
      case Ops(ops, exprs) =>
        var v := exprs[0].v;
        assert LooseExpr(exprs[0]) == [Tok(v)];
        MatchToken(c, Plain(Kind.Sub), [Tok(v)]);
        MatchOne(c[1..], v);
        assert c == [Plain(Kind.Sub), v] && (c + rest)[2..] == rest;
        ParseAtomicNegation(c + rest);
        assert ops == [Kind.Sub] && exprs == [exprs[0]];
      case Funcall(_) => AcceptsCall(c, e, rest);
    }
  }

  lemma {:induction false} AcceptsCall(c: seq<Token>, e: Expr, rest: seq<Token>)
    requires e.Funcall? && Shaped(e, 0) && Matches(c, LooseExpr(e)) && Stops(rest, 0)
    ensures Parse(c + rest, 0) == Ok(e, rest)
    decreases e, 0, |e.exprs|
  {
    hide Parse, ParseArgs, LooseArgs, LooseExpr, Matches, Shaped;
    var f, d := CallSplit(c, e);
    var tail := [Plain(RParent)] + rest;
    assert c + rest == [f, Plain(LParent)] + (d + tail);
    assert Advance(Advance(c + rest)) == d + tail;
    AcceptsArgs(d, e, 1, tail);
    ParseAtomicCall(c + rest, e.exprs[1..], tail);
    assert e.exprs == [e.exprs[0]] + e.exprs[1..] && Advance(tail) == rest;
  }

  /** A written call: the callee, the parentheses, and the written arguments between them. */
  lemma CallSplit(c: seq<Token>, e: Expr) returns (f: Token, d: seq<Token>)
    requires e.Funcall? && Shaped(e, 0) && Matches(c, LooseExpr(e))
    ensures e.exprs != [] && e.exprs[0] == Atom(f) && LiteralKind(f.Kind())
    ensures c == [f, Plain(LParent)] + (d + [Plain(RParent)]) && Matches(d, LooseArgs(e, 1))
  {
    hide Matches, LooseArgs;
    f := e.exprs[0].v;
    var open, close := Plain(LParent), Plain(RParent);
    assert LooseExpr(e.exprs[0]) == [Tok(f)];
    MatchToken(c, f, [Tok(open)] + (LooseArgs(e, 1) + [Tok(close)]));
    MatchToken(c[1..], open, LooseArgs(e, 1) + [Tok(close)]);
    var b;
    d, b := MatchSplit(c[1..][1..], LooseArgs(e, 1), [Tok(close)]);
    MatchOne(b, close);
    assert c == [f, open] + c[1..][1..];
  }

  lemma {:induction false} AcceptsArgs(d: seq<Token>, e: Expr, i: nat, tail: seq<Token>)
    requires e.Funcall? && Shaped(e, 0) && 1 <= i <= |e.exprs| && Head(tail) == RParent && Matches(d, LooseArgs(e, i))
    ensures ParseArgs(d + tail) == (e.exprs[i..], tail)
    decreases e, 0, |e.exprs| - i
  {
    hide Parse, ParseArgs, LooseExpr, LooseArgs, Matches, Shaped, Stops;
    if i == |e.exprs| {
      ArgsEnd(e, i);
      NoneMatches(d);
      assert d + tail == tail && e.exprs[i..] == [];
      NoArgs(tail);
    } else if i + 1 == |e.exprs| {
      AcceptsLast(d, e, i, tail);
    } else {
      ArgsStep(e, i);
      ArgShaped(e, i);
      var a, b := MatchSplit(d, LooseExpr(e.exprs[i]), [Tok(Plain(Comma))] + LooseArgs(e, i + 1));
      MatchToken(b, Plain(Comma), LooseArgs(e, i + 1));
      assert d + tail == a + (b + tail) && Advance(b + tail) == b[1..] + tail;
      ArgStops(b + tail);
      Accepts(a, e.exprs[i], 3, b + tail);
      AcceptsArgs(b[1..], e, i + 1, tail);
      ParseArgsMore(d + tail, e.exprs[i], b + tail, e.exprs[i + 1..], tail);
      Slice(e.exprs, i);
    }
  }

  /** The last argument, with a comma after it or without. */
  lemma {:induction false} AcceptsLast(d: seq<Token>, e: Expr, i: nat, tail: seq<Token>)
    requires e.Funcall? && Shaped(e, 0) && 1 <= i && i + 1 == |e.exprs| && Head(tail) == RParent
    requires Matches(d, LooseArgs(e, i))
    ensures ParseArgs(d + tail) == (e.exprs[i..], tail)
    decreases e, 0, 0
  {
    hide Parse, ParseArgs, LooseExpr, LooseArgs, Matches, Shaped, Stops;
    ArgsEnd(e, i);
    ArgShaped(e, i);
    var a, b := MatchSplit(d, LooseExpr(e.exprs[i]), [OptComma]);
    MatchComma(b);
    assert d + tail == a + (b + tail) && e.exprs[i..] == [e.exprs[i]];
    ArgStops(b + tail);
    Accepts(a, e.exprs[i], 3, b + tail);
    if b == [] {
      assert b + tail == tail;
      ParseArgsLast(d + tail, e.exprs[i], tail);
    } else {
      assert Advance(b + tail) == tail;
      NoArgs(tail);
      ParseArgsMore(d + tail, e.exprs[i], b + tail, [], tail);
      assert [e.exprs[i]] + [] == [e.exprs[i]];
    }
  }

  lemma ArgShaped(e: Expr, i: nat)
    requires e.Funcall? && Shaped(e, 0) && 1 <= i < |e.exprs|
    ensures Shaped(e.exprs[i], 3)
  {
  }

  lemma ArgStops(ts: seq<Token>)
    requires Head(ts) in {Comma, RParent}
    ensures Stops(ts, 3)
  {
  }

  lemma NoArgs(ts: seq<Token>)
    requires Head(ts) == RParent
    ensures ParseArgs(ts) == ([], ts)
  {
    hide Parse, ParseArgs;
    NoExpression(ts, 3);
    ParseArgsNone(ts);
  }

  lemma Slice<T>(s: seq<T>, i: nat)
    requires i < |s|
    ensures s[i..] == [s[i]] + s[i + 1..]
  {
  }

  lemma {:induction false} AcceptsRest(d: seq<Token>, e: Expr, i: nat, level: nat, rest: seq<Token>)
    requires 1 <= level <= 2 && ShapedNode(e, level) && i <= |e.ops| && Stops(rest, level)
    requires Matches(d, LooseOps(e, i))
    ensures ParseRest(d + rest, level) == Ok((e.ops[i..], e.exprs[i + 1..]), rest)
    decreases e, 0, |e.ops| - i
  {
    hide Parse, LooseExpr, LooseOps, Shaped, ParseRest, Matches, Stops, OpsAt;
    FirstOp(d, e, i, level, rest);
    if i == |e.ops| {
      RestEnds(e, level, rest);
      assert d + rest == rest;
    } else {
      NextOps(e, i);
      MatchToken(d, Plain(e.ops[i]), LooseExpr(e.exprs[i + 1]) + LooseOps(e, i + 1));
      var a, b := MatchSplit(d[1..], LooseExpr(e.exprs[i + 1]), LooseOps(e, i + 1));
      FirstOp(b, e, i + 1, level, rest);
      Accepts(a, e.exprs[i + 1], level - 1, b + rest);
      AcceptsRest(b, e, i + 1, level, rest);
      assert Advance(d + rest) == a + (b + rest);
      ParseRestMore(d + rest, level, e.exprs[i + 1], b + rest, e.ops[i + 1..], e.exprs[i + 2..], rest);
      Slice(e.ops, i);
      Slice(e.exprs, i + 1);
    }
  }

  lemma NextOps(e: Expr, i: nat)
    requires e.Ops? && i < |e.ops| && i + 1 < |e.exprs|
    ensures LooseOps(e, i) == [Tok(Plain(e.ops[i]))] + (LooseExpr(e.exprs[i + 1]) + LooseOps(e, i + 1))
  {
  }

  lemma RestEnds(e: Expr, level: nat, rest: seq<Token>)
    requires e.Ops? && |e.exprs| == |e.ops| + 1 && 1 <= level <= 2 && Stops(rest, level)
    ensures ParseRest(rest, level) == Ok((e.ops[|e.ops|..], e.exprs[|e.ops| + 1..]), rest)
  {
    assert e.ops[|e.ops|..] == [] && e.exprs[|e.ops| + 1..] == [];
  }

  /** In particular from its own tokens. */
  lemma Complete(e: Expr, level: nat, rest: seq<Token>)
    requires level <= 3 && Shaped(e, level) && Stops(rest, level)
    ensures Parse(Yield(e) + rest, level) == Ok(e, rest)
  {
    hide Yield, LooseExpr, Matches, Parse, Shaped;
    YieldMatches(e);
    Accepts(Yield(e), e, level, rest);
  }

  lemma TokensOfAtomic(e: Expr)
    requires Shaped(e, 0)
    ensures e.Atom? ==> Yield(e) == [e.v]
    ensures e.Ops? ==> Yield(e) == [Plain(Kind.Sub), e.exprs[0].v]
    ensures e.Funcall? ==> Yield(e) == [e.exprs[0].v, Plain(LParent)] + (YieldArgs(e, 1) + [Plain(RParent)])
  {
    hide YieldArgs;
    if !e.Atom? {
      assert Yield(e.exprs[0]) == [e.exprs[0].v];
    }
  }

  lemma OpsStep(e: Expr, i: nat)
    requires e.Ops? && i < |e.ops| && i + 1 < |e.exprs|
    ensures YieldOps(e, i) == [Plain(e.ops[i])] + (Yield(e.exprs[i + 1]) + YieldOps(e, i + 1))
  {
  }

  // ----- soundness -----

  /** `c` is a way to write `e`. */
  ghost predicate Reads(c: seq<Token>, e: Expr) {
    Matches(c, LooseExpr(e)) && c != [] && (LiteralKind(Head(c)) || Head(c) == Sub)
  }

  /** Soundness: whatever the parser returns is a tree of its level, and the tokens it
      used are a way to write that tree. */
  lemma {:induction false} Sound(ts: seq<Token>, level: nat) returns (c: seq<Token>)
    requires level <= 3 && Parse(ts, level).Ok?
    ensures Shaped(Parse(ts, level).value, level)
    ensures ts == c + Parse(ts, level).rest && Reads(c, Parse(ts, level).value)
    decreases |ts|, level + 2
  {
    hide Parse, ParseRest, Shaped, LooseExpr, LooseOps, Matches;
    if level == 0 {
      c := SoundAtomic(ts);
    } else {
      SubparseOk(ts, level);
      var first := Parse(ts, level - 1);
      c := Sound(ts, level - 1);
      if Head(first.rest) !in OpsAt(level) {
        ParseDown(ts, level, first.value, first.rest);
        ShapedHigher(first.value, level);
      } else {
        var e := Parse(ts, level).value;
        var d := SoundOps(ts, level);
        MatchConcat(c, LooseExpr(first.value), d, LooseOps(e, 0));
        c := c + d;
      }
    }
  }

  lemma SubparseOk(ts: seq<Token>, level: nat)
    requires 1 <= level <= 3 && Parse(ts, level).Ok?
    ensures Parse(ts, level - 1).Ok?
  {
  }

  lemma ShapedHigher(e: Expr, level: nat)
    requires 1 <= level <= 3 && Shaped(e, level - 1)
    ensures Shaped(e, level)
  {
  }

  /** The tokens `d` of the operators and further operands after a first operand. */
  lemma {:induction false} SoundOps(ts: seq<Token>, level: nat) returns (d: seq<Token>)
    requires 1 <= level <= 3 && Parse(ts, level).Ok? && Parse(ts, level - 1).Ok?
    requires Head(Parse(ts, level - 1).rest) in OpsAt(level) && Shaped(Parse(ts, level - 1).value, level - 1)
    ensures var first, all := Parse(ts, level - 1), Parse(ts, level);
            && Shaped(all.value, level) && first.rest == d + all.rest
            && all.value.Ops? && Matches(d, LooseOps(all.value, 0))
            && LooseExpr(all.value) == LooseExpr(first.value) + LooseOps(all.value, 0)
    decreases |ts|, level + 2, 0
  {
    hide Parse, ParseRest, Shaped, LooseExpr, LooseOps, Matches;
    var e0, rest, e := Parse(ts, level - 1).value, Parse(ts, level - 1).rest, Parse(ts, level).value;
    if level == 3 {
      ParseOfCompare(ts);
      var c := Sound(Advance(rest), 2);
      NotEnd(rest, 3);
      d := [rest[0]] + c;
      OneOp(e);
      MatchToken(c, rest[0], LooseExpr(e.exprs[1]));
    } else {
      ParseOfChain(ts, level);
      d := SoundRest(rest, level, [], [e0]);
      var r := ParseRest(rest, level).value;
      assert [] + r.0 == r.0;
    }
    LooseOfNode(e);
    NodeShaped(e, level);
  }

  lemma NotEnd(ts: seq<Token>, level: nat)
    requires 1 <= level <= 3 && Head(ts) in OpsAt(level)
    ensures ts != [] && ts == [ts[0]] + Advance(ts) && ts[0] == Plain(Head(ts)) && Head(ts) !in {Comma, RParent}
  {
  }

  lemma ParseOfCompare(ts: seq<Token>)
    requires Parse(ts, 3).Ok? && Parse(ts, 2).Ok? && Head(Parse(ts, 2).rest) in OpsAt(3)
    ensures var rest := Parse(ts, 2).rest;
            && Parse(Advance(rest), 2).Ok? && Parse(ts, 3).rest == Parse(Advance(rest), 2).rest
            && Parse(ts, 3).value == Ops([Head(rest)], [Parse(ts, 2).value, Parse(Advance(rest), 2).value])
  {
  }

  lemma ParseOfChain(ts: seq<Token>, level: nat)
    requires 1 <= level <= 2 && Parse(ts, level).Ok? && Parse(ts, level - 1).Ok?
    requires Head(Parse(ts, level - 1).rest) in OpsAt(level)
    ensures var r := ParseRest(Parse(ts, level - 1).rest, level);
            && r.Ok? && Parse(ts, level).rest == r.rest
            && Parse(ts, level).value == Ops(r.value.0, [Parse(ts, level - 1).value] + r.value.1)
  {
    hide ParseRest;
  }

  lemma LooseOfNode(e: Expr)
    requires e.Ops? && |e.exprs| >= 2
    ensures LooseExpr(e) == LooseExpr(e.exprs[0]) + LooseOps(e, 0)
  {
  }

  lemma OneOp(e: Expr)
    requires e.Ops? && |e.ops| == 1 && |e.exprs| == 2
    ensures LooseOps(e, 0) == [Tok(Plain(e.ops[0]))] + LooseExpr(e.exprs[1])
  {
    hide LooseExpr;
    assert LooseOps(e, 1) == [];
  }

  lemma NodeShaped(e: Expr, level: nat)
    requires 1 <= level <= 3 && ShapedNode(e, level)
    ensures Shaped(e, level)
  {
  }

  /** The tokens of a level's loop, entered with `ops0` and `exprs0` already collected. */
  lemma {:induction false} SoundRest(ts: seq<Token>, level: nat, ops0: seq<Kind>, exprs0: seq<Expr>)
    returns (d: seq<Token>)
    requires 1 <= level <= 2 && ParseRest(ts, level).Ok? && |exprs0| == |ops0| + 1
    ensures var r := ParseRest(ts, level);
            var (ops, exprs) := r.value;
            && |ops| == |exprs| && ts == d + r.rest && (Head(ts) in OpsAt(level) ==> |ops| >= 1)
            && (forall k :: 0 <= k < |ops| ==> ops[k] in OpsAt(level))
            && (forall k :: 0 <= k < |exprs| ==> Shaped(exprs[k], level - 1))
            && Matches(d, LooseOps(Ops(ops0 + ops, exprs0 + exprs), |ops0|))
    decreases |ts|, 0
  {
    hide Parse, Shaped, LooseExpr, LooseOps, ParseRest, OpsAt, Matches, LiteralKind;
    if Head(ts) !in OpsAt(level) {
      d := [];
      RestNone(ts, level, Ops(ops0, exprs0));
    } else {
      RestUnfolds(ts, level);
      var first := Parse(Advance(ts), level - 1);
      var c := Sound(Advance(ts), level - 1);
      var more := SoundRest(first.rest, level, ops0 + [Head(ts)], exprs0 + [first.value]);
      var r1 := ParseRest(first.rest, level);
      Regroup(ops0, Head(ts), r1.value.0);
      Regroup(exprs0, first.value, r1.value.1);
      var r := ParseRest(ts, level);
      var e := Ops(ops0 + r.value.0, exprs0 + r.value.1);
      NextOps(e, |ops0|);
      NotEnd(ts, level);
      MatchConcat(c, LooseExpr(first.value), more, LooseOps(e, |ops0| + 1));
      MatchToken(c + more, ts[0], LooseExpr(first.value) + LooseOps(e, |ops0| + 1));
      Join(ts[0], c, more, r.rest);
      d := [ts[0]] + (c + more);
    }
  }

  lemma RestNone(ts: seq<Token>, level: nat, e: Expr)
    requires 1 <= level <= 2 && Head(ts) !in OpsAt(level) && e.Ops?
    ensures ParseRest(ts, level) == Ok(([], []), ts)
    ensures Matches([], LooseOps(Ops(e.ops + [], e.exprs + []), |e.ops|)) && [] + ts == ts
  {
  }

  lemma Regroup<T>(a: seq<T>, x: T, b: seq<T>)
    ensures a + [x] + b == a + ([x] + b)
  {
  }

  lemma Join(t: Token, c: seq<Token>, d: seq<Token>, rest: seq<Token>)
    ensures [t] + (c + (d + rest)) == [t] + (c + d) + rest
  {
  }

  lemma RestUnfolds(ts: seq<Token>, level: nat)
    requires 1 <= level <= 2 && Head(ts) in OpsAt(level) && ParseRest(ts, level).Ok?
    ensures Parse(Advance(ts), level - 1).Ok?
    ensures var first := Parse(Advance(ts), level - 1);
            && ParseRest(first.rest, level).Ok?
            && var r, r1 := ParseRest(ts, level), ParseRest(first.rest, level);
               r.value.0 == [Head(ts)] + r1.value.0 && r.value.1 == [first.value] + r1.value.1 && r.rest == r1.rest
  {
    hide Parse;
  }

  lemma {:induction false} SoundAtomic(ts: seq<Token>) returns (c: seq<Token>)
    requires Parse(ts, 0).Ok?
    ensures Shaped(Parse(ts, 0).value, 0)
    ensures ts == c + Parse(ts, 0).rest && Reads(c, Parse(ts, 0).value)
    decreases |ts|, 1
  {
    hide ParseArgs, Matches, LooseArgs;
    if ParseFuncall(ts).Ok? {
      c := SoundCall(ts);
    } else if Head(ts) == Sub {
      c := SoundNegation(ts);
    } else {
      c := [ts[0]];
      MatchOne(c, ts[0]);
    }
  }

  lemma SoundNegation(ts: seq<Token>) returns (c: seq<Token>)
    requires Parse(ts, 0).Ok? && Head(ts) == Sub
    ensures Shaped(Parse(ts, 0).value, 0)
    ensures ts == c + Parse(ts, 0).rest && Reads(c, Parse(ts, 0).value)
  {
    hide ParseArgs, Matches, Parse;
    ParseAtomicNegation(ts);
    c := [ts[0], ts[1]];
    assert LooseExpr(Atom(ts[1])) == [Tok(ts[1])];
    MatchOne([ts[1]], ts[1]);
    MatchToken([ts[1]], ts[0], [Tok(ts[1])]);
    assert [ts[0]] + [ts[1]] == c && ts[0] == Plain(Kind.Sub);
  }

  lemma {:induction false} SoundCall(ts: seq<Token>) returns (c: seq<Token>)
    requires ParseFuncall(ts).Ok?
    ensures Shaped(ParseFuncall(ts).value, 0)
    ensures ts == c + ParseFuncall(ts).rest && Reads(c, ParseFuncall(ts).value)
    decreases |ts|, 0
  {
    hide Parse, ParseFuncall, ParseArgs, Matches, LooseExpr, LooseArgs, Shaped, Reads;
    CallUnfolds(ts);
    var inner := Advance(Advance(ts));
    var (args, afterArgs) := ParseArgs(inner);
    var d := SoundArgs(inner, [Atom(ts[0])]);
    CallShaped(ts[0], args);
    HeadIs(ts);
    HeadIs(Advance(ts));
    HeadIs(afterArgs);
    c := [ts[0], Plain(LParent)] + (d + [Plain(RParent)]);
    CallReads(ts[0], d, Funcall([Atom(ts[0])] + args));
    CallTokens(ts[0], Plain(LParent), d, Plain(RParent), Advance(afterArgs));
    assert Advance(ts)[0] == Plain(LParent) && afterArgs[0] == Plain(RParent);
  }

  lemma CallTokens(f: Token, open: Token, d: seq<Token>, close: Token, rest: seq<Token>)
    ensures [f] + ([open] + (d + ([close] + rest))) == [f, open] + (d + [close]) + rest
  {
  }

  lemma HeadIs(ts: seq<Token>)
    requires Head(ts) != Enf
    ensures ts == [ts[0]] + Advance(ts)
  {
  }

  /** What a successful call parse has seen. */
  lemma CallUnfolds(ts: seq<Token>)
    requires ParseFuncall(ts).Ok?
    ensures ts != [] && LiteralKind(ts[0].Kind()) && Head(Advance(ts)) == LParent
    ensures var (args, afterArgs) := ParseArgs(Advance(Advance(ts)));
            && ParseFuncall(ts) == Ok(Funcall([Atom(ts[0])] + args), Advance(afterArgs)) && Head(afterArgs) == RParent
  {
    hide ParseArgs, Parse;
  }

  lemma CallShaped(f: Token, args: seq<Expr>)
    requires LiteralKind(f.Kind()) && forall k :: 0 <= k < |args| ==> Shaped(args[k], 3)
    ensures Shaped(Funcall([Atom(f)] + args), 0)
  {
  }

  lemma CallReads(f: Token, d: seq<Token>, e: Expr)
    requires LiteralKind(f.Kind()) && e.Funcall? && e.exprs != [] && e.exprs[0] == Atom(f)
    requires Matches(d, LooseArgs(e, 1))
    ensures Reads([f, Plain(LParent)] + (d + [Plain(RParent)]), e)
  {
    hide Matches, LooseArgs;
    var open, close := Plain(LParent), Plain(RParent);
    MatchOne([close], close);
    MatchConcat(d, LooseArgs(e, 1), [close], [Tok(close)]);
    MatchToken(d + [close], open, LooseArgs(e, 1) + [Tok(close)]);
    assert LooseExpr(Atom(f)) == [Tok(f)];
    MatchToken([open] + (d + [close]), f, [Tok(open)] + (LooseArgs(e, 1) + [Tok(close)]));
    assert [f] + ([open] + (d + [close])) == [f, open] + (d + [close]);
  }

  /** The arguments, up to the closing parenthesis. */
  lemma {:induction false} SoundArgs(ts: seq<Token>, exprs0: seq<Expr>) returns (d: seq<Token>)
    requires Head(ParseArgs(ts).1) == RParent
    ensures var (args, rest) := ParseArgs(ts);
            && ts == d + rest
            && (forall k :: 0 <= k < |args| ==> Shaped(args[k], 3))
            && Matches(d, LooseArgs(Funcall(exprs0 + args), |exprs0|)) && (args == [] ==> d == [])
    decreases |ts|, 6
  {
    hide Parse, Shaped, LooseExpr, LooseArgs, Matches;
    var (args, rest) := ParseArgs(ts);
    var e := Funcall(exprs0 + args);
    if Parse(ts, 3).Err? {
      d := [];
      ArgsEnd(e, |exprs0|);
      NothingMatches();
    } else {
      var x, after := Parse(ts, 3).value, Parse(ts, 3).rest;
      d := Sound(ts, 3);
      if Head(after) != Comma {
        ArgsEnd(e, |exprs0|);
        MatchComma([]);
        MatchConcat(d, LooseExpr(x), [], [OptComma]);
        assert d + [] == d;
      } else {
        var more := ParseArgs(Advance(after)).0;
        var d' := SoundArgs(Advance(after), exprs0 + [x]);
        Regroup(exprs0, x, more);
        HeadIs(after);
        assert after[0] == Plain(Comma);
        CommaStep(e, |exprs0|, d, d');
        Join3(d, after[0], d', rest);
        d := d + ([after[0]] + d');
      }
    }
  }

  lemma ArgsEnd(e: Expr, i: nat)
    requires e.Funcall? && i <= |e.exprs| <= i + 1
    ensures LooseArgs(e, i) == if |e.exprs| == i then [] else LooseExpr(e.exprs[i]) + [OptComma]
  {
  }

  /** A comma after the argument `e.exprs[i]`: before another argument, or before `)`. */
  lemma CommaStep(e: Expr, i: nat, d: seq<Token>, more: seq<Token>)
    requires e.Funcall? && i < |e.exprs| && Matches(d, LooseExpr(e.exprs[i])) && Matches(more, LooseArgs(e, i + 1))
    requires i + 1 == |e.exprs| ==> more == []
    ensures Matches(d + ([Plain(Comma)] + more), LooseArgs(e, i))
  {
    hide Matches, LooseExpr, LooseArgs;
    var comma := Plain(Comma);
    if i + 1 == |e.exprs| {
      ArgsEnd(e, i);
      assert [comma] + more == [comma];
      MatchComma([comma]);
      MatchConcat(d, LooseExpr(e.exprs[i]), [comma], [OptComma]);
    } else {
      ArgsStep(e, i);
      MatchToken(more, comma, LooseArgs(e, i + 1));
      MatchConcat(d, LooseExpr(e.exprs[i]), [comma] + more, [Tok(comma)] + LooseArgs(e, i + 1));
    }
  }

  lemma Join3(d: seq<Token>, t: Token, d': seq<Token>, rest: seq<Token>)
    ensures d + ([t] + (d' + rest)) == d + ([t] + d') + rest
  {
  }

  lemma ArgsStep(e: Expr, i: nat)
    requires e.Funcall? && i + 1 < |e.exprs|
    ensures LooseArgs(e, i) == LooseExpr(e.exprs[i]) + ([Tok(Plain(Comma))] + LooseArgs(e, i + 1))
  {
  }

  /** The parser decides the grammar: a token list parses completely to `e` exactly when it
      is a way to write the tree `e`. */
  lemma ExactlyTheGrammar(ts: seq<Token>, e: Expr)
    ensures Parse(ts, 3) == Ok(e, []) <==> Shaped(e, 3) && Matches(ts, LooseExpr(e))
  {
    hide Parse, Shaped, LooseExpr, Matches;
    if Parse(ts, 3) == Ok(e, []) {
      var c := Sound(ts, 3);
      assert c + [] == c;
    }
    if Shaped(e, 3) && Matches(ts, LooseExpr(e)) {
      Accepts(ts, e, 3, []);
      assert ts + [] == ts;
    }
  }

  /** A comma without an argument before it is not read: of `f(,)` only the name is. */
  lemma LoneComma(f: Token)
    requires LiteralKind(f.Kind())
    ensures var tail := [Plain(LParent), Plain(Comma), Plain(RParent)]; Parse([f] + tail, 3) == Ok(Atom(f), tail)
  {
    var tail := [Plain(LParent), Plain(Comma), Plain(RParent)];
    var ts := [f] + tail;
    assert Parse(ts, 0) == Ok(Atom(f), tail) by { NoCall(ts, tail); }
    hide Parse;
    ParseDown(ts, 1, Atom(f), tail);
    ParseDown(ts, 2, Atom(f), tail);
    ParseDown(ts, 3, Atom(f), tail);
  }

  /** Without arguments up to a closing parenthesis there is no call, only its name. */
  lemma NoCall(ts: seq<Token>, tail: seq<Token>)
    requires LiteralKind(Head(ts)) && Advance(ts) == tail && Head(tail) == LParent
    requires Head(Advance(tail)) == Comma
    ensures Parse(ts, 0) == Ok(Atom(ts[0]), tail)
  {
    hide ParseArgs;
    assert ParseArgs(Advance(tail)) == ([], Advance(tail)) by {
      NoExpression(Advance(tail), 3);
      ParseArgsNone(Advance(tail));
    }
    assert ParseFuncall(ts) == Err(false);
  }

  /** No two trees have a way to be written in common. */
  lemma Unambiguous(e: Expr, f: Expr, c: seq<Token>)
    requires Shaped(e, 3) && Shaped(f, 3) && Matches(c, LooseExpr(e)) && Matches(c, LooseExpr(f))
    ensures e == f
  {
    hide Parse, Shaped, LooseExpr, Matches;
    Accepts(c, e, 3, []);
    Accepts(c, f, 3, []);
  }
}
