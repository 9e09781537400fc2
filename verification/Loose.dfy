/** Token patterns: how a tree may be written, where the parser leaves some freedom. */
module Loose {
  import opened Tokens
  import opened Ast
  import opened ExprCompiler
  import opened Grammar

  /** A token, a comma or nothing, any number of newlines. */
  datatype Pattern = Tok(t: Token) | OptComma | Newlines

  predicate Matches(c: seq<Token>, p: seq<Pattern>)
    decreases |p|, |c|
  {
    if p == [] then c == [] else
      match p[0]
      case Tok(t) => c != [] && c[0] == t && Matches(c[1..], p[1..])
      case OptComma => Matches(c, p[1..]) || (c != [] && c[0] == Plain(Comma) && Matches(c[1..], p[1..]))
      case Newlines => Matches(c, p[1..]) || (c != [] && c[0] == Plain(Enl) && Matches(c[1..], p))
  }

  lemma {:induction false} MatchConcat(a: seq<Token>, p: seq<Pattern>, b: seq<Token>, q: seq<Pattern>)
    requires Matches(a, p) && Matches(b, q)
    ensures Matches(a + b, p + q)
    decreases |p|, |a|
  {
    if p == [] {
      assert a + b == b && p + q == q;
    } else {
      assert (p + q)[0] == p[0] && (p + q)[1..] == p[1..] + q;
      if a != [] {
        assert (a + b)[0] == a[0] && (a + b)[1..] == a[1..] + b;
      }
      if !p[0].Tok? && Matches(a, p[1..]) {
        MatchConcat(a, p[1..], b, q);
      } else {
        MatchConcat(a[1..], if p[0].Newlines? then p else p[1..], b, q);
      }
    }
  }

  lemma {:induction false} MatchSplit(c: seq<Token>, p: seq<Pattern>, q: seq<Pattern>)
    returns (a: seq<Token>, b: seq<Token>)
    requires Matches(c, p + q)
    ensures c == a + b && Matches(a, p) && Matches(b, q)
    decreases |p|, |c|
  {
    if p == [] {
      assert p + q == q;
      a, b := [], c;
    } else {
      assert (p + q)[0] == p[0] && (p + q)[1..] == p[1..] + q;
      if !p[0].Tok? && Matches(c, p[1..] + q) {
        a, b := MatchSplit(c, p[1..], q);
      } else {
        a, b := MatchSplit(c[1..], if p[0].Newlines? then p else p[1..], q);
        a := [c[0]] + a;
        assert a[1..] + b == c[1..];
      }
    }
  }

  lemma MatchToken(c: seq<Token>, t: Token, q: seq<Pattern>)
    ensures Matches(c, [Tok(t)] + q) <==> c != [] && c[0] == t && Matches(c[1..], q)
    ensures Matches(c, q) ==> Matches([t] + c, [Tok(t)] + q)
  {
    assert ([Tok(t)] + q)[1..] == q && ([t] + c)[1..] == c;
  }

  lemma MatchOne(c: seq<Token>, t: Token)
    ensures Matches(c, [Tok(t)]) <==> c == [t]
  {
    MatchToken(c, t, []);
    assert [Tok(t)] + [] == [Tok(t)];
    assert c != [] ==> c == [c[0]] + c[1..];
  }

  lemma MatchComma(c: seq<Token>)
    ensures Matches(c, [OptComma]) <==> c == [] || c == [Plain(Comma)]
  {
    assert c != [] ==> c == [c[0]] + c[1..];
  }

  lemma MatchNewlines(c: seq<Token>)
    ensures Matches(c, [Newlines]) <==> c == [] || (c[0] == Plain(Enl) && Matches(c[1..], [Newlines]))
  {
    assert [Newlines][1..] == [];
    assert Matches(c, []) <==> c == [];
  }

  // ----- building matches up -----

  lemma WithToken(c: seq<Token>, t: Token, q: seq<Pattern>)
    requires Matches(c, q)
    ensures Matches([t] + c, [Tok(t)] + q)
  {
    hide Matches;
    MatchToken(c, t, q);
  }

  lemma WithTwo(c: seq<Token>, t: Token, u: Token, q: seq<Pattern>)
    requires Matches(c, q)
    ensures Matches([t, u] + c, [Tok(t), Tok(u)] + q)
  {
    hide Matches;
    WithToken(c, u, q);
    WithToken([u] + c, t, [Tok(u)] + q);
    assert [t] + ([u] + c) == [t, u] + c && [Tok(t)] + ([Tok(u)] + q) == [Tok(t), Tok(u)] + q;
  }

  /** A comma, or none. */
  lemma WithComma(c: seq<Token>, q: seq<Pattern>)
    requires Matches(c, q)
    ensures Matches([Plain(Comma)] + c, [OptComma] + q) && Matches(c, [OptComma] + q)
  {
    assert ([OptComma] + q)[1..] == q && ([Plain(Comma)] + c)[1..] == c;
  }

  /** One newline, or none. */
  lemma WithNewline(c: seq<Token>, q: seq<Pattern>)
    requires Matches(c, q)
    ensures Matches([Plain(Enl)] + c, [Newlines] + q) && Matches(c, [Newlines] + q)
  {
    assert ([Newlines] + q)[1..] == q && ([Plain(Enl)] + c)[1..] == c;
  }

  // ----- what is taken off the front of a list -----

  /** `rest` is what remains of `ts` when tokens of the pattern `p` are taken off its front. */
  ghost predicate Takes(ts: seq<Token>, rest: seq<Token>, p: seq<Pattern>) {
    |rest| <= |ts| && ts[|ts| - |rest|..] == rest && Matches(ts[..|ts| - |rest|], p)
  }

  lemma TakesThen(ts: seq<Token>, mid: seq<Token>, rest: seq<Token>, p: seq<Pattern>, q: seq<Pattern>)
    requires Takes(ts, mid, p) && Takes(mid, rest, q)
    ensures Takes(ts, rest, p + q)
  {
    hide Matches;
    var a, b := ts[..|ts| - |mid|], mid[..|mid| - |rest|];
    MatchConcat(a, p, b, q);
    assert ts[|ts| - |rest|..] == ts[|ts| - |mid|..][|mid| - |rest|..];
    assert ts[..|ts| - |rest|] == a + b;
  }

  lemma TakesSplit(ts: seq<Token>, rest: seq<Token>, p: seq<Pattern>, q: seq<Pattern>) returns (mid: seq<Token>)
    requires Takes(ts, rest, p + q)
    ensures Takes(ts, mid, p) && Takes(mid, rest, q)
  {
    hide Matches;
    var a, b := MatchSplit(ts[..|ts| - |rest|], p, q);
    mid := b + rest;
    assert ts == a + (b + rest);
    assert ts[..|ts| - |mid|] == a && mid[..|mid| - |rest|] == b;
    assert mid[|mid| - |rest|..] == rest;
  }

  lemma TakesToken(ts: seq<Token>, rest: seq<Token>, t: Token, q: seq<Pattern>)
    requires Takes(ts, rest, [Tok(t)] + q)
    ensures ts != [] && ts[0] == t && Takes(ts[1..], rest, q)
  {
    hide Matches;
    var c := ts[..|ts| - |rest|];
    MatchToken(c, t, q);
    assert ts[1..][|ts| - 1 - |rest|..] == rest && ts[1..][..|ts| - 1 - |rest|] == c[1..];
  }

  lemma TakesNothing(ts: seq<Token>, rest: seq<Token>)
    ensures Takes(ts, rest, []) <==> ts == rest
  {
    assert |rest| == |ts| ==> ts[..0] == [] && ts[0..] == ts;
  }

  /** A pattern token by itself. */
  lemma TakesOne(ts: seq<Token>, rest: seq<Token>, t: Token)
    requires Takes(ts, rest, [Tok(t)])
    ensures ts != [] && ts[0] == t && ts[1..] == rest
  {
    hide Takes;
    assert [Tok(t)] + [] == [Tok(t)];
    TakesToken(ts, rest, t, []);
    TakesNothing(ts[1..], rest);
  }

  lemma TakesComma(ts: seq<Token>, rest: seq<Token>)
    requires Takes(ts, rest, [OptComma])
    ensures ts == rest || (ts != [] && ts[0] == Plain(Comma) && ts[1..] == rest)
  {
    var c := ts[..|ts| - |rest|];
    MatchComma(c);
    assert ts == c + rest;
  }

  // ----- expressions -----

  /** An expression: a comma may stand after the last argument of a call. */
  function LooseExpr(e: Expr): seq<Pattern>
    decreases e, 1
  {
    match e
    case Atom(v) => [Tok(v)]
    case Ops(_, exprs) =>
      if exprs == [] then []
      else if Negation(e) then [Tok(Plain(Kind.Sub))] + LooseExpr(exprs[0])
      else LooseExpr(exprs[0]) + LooseOps(e, 0)
    case Funcall(exprs) =>
      if exprs == [] then []
      else LooseExpr(exprs[0]) + ([Tok(Plain(LParent))] + (LooseArgs(e, 1) + [Tok(Plain(RParent))]))
  }

  /** The operators and operands from the `i`-th operator on. */
  function LooseOps(e: Expr, i: nat): seq<Pattern>
    requires e.Ops?
    decreases e, 0, |e.ops| - i
  {
    if i < |e.ops| && i + 1 < |e.exprs|
    then [Tok(Plain(e.ops[i]))] + (LooseExpr(e.exprs[i + 1]) + LooseOps(e, i + 1))
    else []
  }

  /** The arguments from the `i`-th expression on. */
  function LooseArgs(e: Expr, i: nat): seq<Pattern>
    requires e.Funcall?
    decreases e, 0, |e.exprs| - i
  {
    if i >= |e.exprs| then []
    else if i + 1 == |e.exprs| then LooseExpr(e.exprs[i]) + [OptComma]
    else LooseExpr(e.exprs[i]) + ([Tok(Plain(Comma))] + LooseArgs(e, i + 1))
  }

  /** Its own tokens are one way to write a tree. */
  lemma {:induction false} YieldMatches(e: Expr)
    ensures Matches(Yield(e), LooseExpr(e))
    decreases e, 1
  {
    hide Matches;
    match e {
      case Atom(v) => MatchOne([v], v);
      case Ops(_, exprs) =>
        if exprs == [] {
          NothingMatches();
        } else {
          YieldMatches(exprs[0]);
          if Negation(e) {
            MatchToken(Yield(exprs[0]), Plain(Kind.Sub), LooseExpr(exprs[0]));
          } else {
            OpsMatch(e, 0);
            MatchConcat(Yield(exprs[0]), LooseExpr(exprs[0]), YieldOps(e, 0), LooseOps(e, 0));
          }
        }
      case Funcall(exprs) =>
        if exprs == [] {
          NothingMatches();
        } else {
          YieldMatches(exprs[0]);
          ArgsMatch(e, 1);
          var open, close := Plain(LParent), Plain(RParent);
          MatchOne([close], close);
          MatchConcat(YieldArgs(e, 1), LooseArgs(e, 1), [close], [Tok(close)]);
          MatchToken(YieldArgs(e, 1) + [close], open, LooseArgs(e, 1) + [Tok(close)]);
          MatchConcat(Yield(exprs[0]), LooseExpr(exprs[0]), [open] + (YieldArgs(e, 1) + [close]),
                      [Tok(open)] + (LooseArgs(e, 1) + [Tok(close)]));
        }
    }
  }

  lemma NothingMatches()
    ensures Matches([], [])
  {
  }

  lemma {:induction false} OpsMatch(e: Expr, i: nat)
    requires e.Ops?
    ensures Matches(YieldOps(e, i), LooseOps(e, i))
    decreases e, 0, |e.ops| - i
  {
    hide Matches, Yield, LooseExpr;
    if i < |e.ops| && i + 1 < |e.exprs| {
      YieldMatches(e.exprs[i + 1]);
      OpsMatch(e, i + 1);
      var x, p := Yield(e.exprs[i + 1]), LooseExpr(e.exprs[i + 1]);
      MatchConcat(x, p, YieldOps(e, i + 1), LooseOps(e, i + 1));
      MatchToken(x + YieldOps(e, i + 1), Plain(e.ops[i]), p + LooseOps(e, i + 1));
    } else {
      NothingMatches();
    }
  }

  lemma {:induction false} ArgsMatch(e: Expr, i: nat)
    requires e.Funcall?
    ensures Matches(YieldArgs(e, i), LooseArgs(e, i))
    decreases e, 0, |e.exprs| - i
  {
    hide Matches, Yield, LooseExpr;
    if i >= |e.exprs| {
      NothingMatches();
    } else {
      YieldMatches(e.exprs[i]);
      var x, p := Yield(e.exprs[i]), LooseExpr(e.exprs[i]);
      if i + 1 == |e.exprs| {
        MatchComma([]);
        MatchConcat(x, p, [], [OptComma]);
        assert x + [] == x;
      } else {
        ArgsMatch(e, i + 1);
        MatchToken(YieldArgs(e, i + 1), Plain(Comma), LooseArgs(e, i + 1));
        MatchConcat(x, p, [Plain(Comma)] + YieldArgs(e, i + 1), [Tok(Plain(Comma))] + LooseArgs(e, i + 1));
      }
    }
  }
}
