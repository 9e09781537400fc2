/** Whatever the statement parser accepts is a way to write the tree it returns. */
module StmtSound {
  import opened Wrappers
  import opened Tokens
  import opened Ast
  import opened ExprCompiler
  import opened Grammar
  import opened ExprParser
  import opened ExprParserProofs
  import opened StmtParser
  import opened StmtGrammar
  import opened Loose
  import opened StmtLoose
  import SPP = StmtParserProofs

  /** As the scanners make them: a symbol has a text. And `func` is followed by a symbol,
      which the parser does not check. */
  predicate Proper(ts: seq<Token>) {
    forall k :: 0 <= k < |ts| ==>
      && (ts[k].Kind() == Symbol ==> ts[k].SymToken? && ts[k].s != "")
      && (ts[k].Kind() == Func && k + 1 < |ts| ==> ts[k + 1].Kind() == Symbol)
  }

  /** Taking a pattern off the front of a proper list leaves a proper one. */
  ghost predicate Eats(ts: seq<Token>, rest: seq<Token>, p: seq<Pattern>) {
    Takes(ts, rest, p) && (Proper(ts) ==> Proper(rest))
  }

  lemma EatsThen(ts: seq<Token>, mid: seq<Token>, rest: seq<Token>, p: seq<Pattern>, q: seq<Pattern>)
    requires Eats(ts, mid, p) && Eats(mid, rest, q)
    ensures Eats(ts, rest, p + q)
  {
    hide Proper, Takes;
    TakesThen(ts, mid, rest, p, q);
  }

  lemma EatsTakes(ts: seq<Token>, rest: seq<Token>, p: seq<Pattern>)
    requires Eats(ts, rest, p)
    ensures Takes(ts, rest, p)
  {
  }

  lemma EatsNothing(ts: seq<Token>)
    ensures Eats(ts, ts, [])
  {
    hide Proper;
  }

  lemma EatsTokens(c: seq<Token>, rest: seq<Token>, p: seq<Pattern>)
    requires Matches(c, p)
    ensures Eats(c + rest, rest, p)
  {
    hide Proper, Matches;
    assert Proper(c + rest) ==> Proper(rest) by { if Proper(c + rest) { ProperRest(c, rest); } }
    assert (c + rest)[..|c|] == c;
  }

  lemma ProperRest(c: seq<Token>, rest: seq<Token>)
    requires Proper(c + rest)
    ensures Proper(rest)
  {
    assert forall k :: 0 <= k < |rest| ==> rest[k] == (c + rest)[|c| + k];
  }

  lemma EatsOne(ts: seq<Token>)
    requires Head(ts) != Enf
    ensures Eats(ts, Advance(ts), [Tok(ts[0])])
    ensures Head(ts) == Comma ==> Eats(ts, Advance(ts), [OptComma])
    ensures Proper(ts) ==> Proper(Advance(ts))
    ensures Proper(ts) && Head(ts) == Symbol ==> ts[0] == SymToken(HeadText(ts)) && HeadText(ts) != ""
    ensures Head(ts) !in {Int, Float, Str, Symbol} ==> ts[0] == Plain(Head(ts))
  {
    hide Proper, Matches;
    assert ts == [ts[0]] + ts[1..];
    MatchOne([ts[0]], ts[0]);
    MatchComma([ts[0]]);
    EatsTokens([ts[0]], ts[1..], [Tok(ts[0])]);
    if Head(ts) == Comma {
      EatsTokens([ts[0]], ts[1..], [OptComma]);
    }
    SymbolText(ts);
  }

  lemma SymbolText(ts: seq<Token>)
    ensures Proper(ts) && Head(ts) == Symbol ==> ts[0] == SymToken(HeadText(ts)) && HeadText(ts) != ""
    ensures Proper(ts) && ts != [] ==> Proper(ts[1..])
  {
  }

  lemma {:induction false} EatsNewlines(ts: seq<Token>)
    ensures Eats(ts, SkipNewlines(ts), [Newlines])
    decreases |ts|
  {
    hide Proper, Matches;
    if Head(ts) == Enl {
      EatsNewlines(Advance(ts));
      var rest := SkipNewlines(ts);
      var c := Advance(ts)[..|Advance(ts)| - |rest|];
      MatchNewline(c);
      EatsOne(ts);
      assert [ts[0]] + c == ts[..|ts| - |rest|];
    } else {
      NoNewline();
    }
  }

  lemma MatchNewline(c: seq<Token>)
    requires Matches(c, [Newlines])
    ensures Matches([Plain(Enl)] + c, [Newlines]) && Matches([Plain(Enl)] + c, [Tok(Plain(Enl)), Newlines])
  {
    assert ([Plain(Enl)] + c)[1..] == c;
    assert [Tok(Plain(Enl)), Newlines] == [Tok(Plain(Enl))] + [Newlines];
    MatchToken(c, Plain(Enl), [Newlines]);
  }

  lemma NoNewline()
    ensures Matches([], [Newlines])
  {
  }

  /** A token, then something. */
  lemma EatsToken(ts: seq<Token>, rest: seq<Token>, p: seq<Pattern>)
    requires Head(ts) != Enf && Eats(Advance(ts), rest, p)
    ensures Eats(ts, rest, [Tok(ts[0])] + p)
  {
    hide Proper, Eats;
    EatsOne(ts);
    EatsThen(ts, Advance(ts), rest, [Tok(ts[0])], p);
  }

  lemma EatsTwo(ts: seq<Token>, rest: seq<Token>, p: seq<Pattern>)
    requires Head(ts) != Enf && Head(Advance(ts)) != Enf && Eats(Advance(Advance(ts)), rest, p)
    ensures Eats(ts, rest, [Tok(ts[0]), Tok(Advance(ts)[0])] + p)
  {
    hide Proper, Eats;
    EatsToken(Advance(ts), rest, p);
    EatsToken(ts, rest, [Tok(Advance(ts)[0])] + p);
    assert [Tok(ts[0])] + ([Tok(Advance(ts)[0])] + p) == [Tok(ts[0]), Tok(Advance(ts)[0])] + p;
  }

  lemma EatsAfterNewlines(ts: seq<Token>, rest: seq<Token>, p: seq<Pattern>)
    requires Eats(SkipNewlines(ts), rest, p)
    ensures Eats(ts, rest, [Newlines] + p)
  {
    hide Proper, Eats;
    EatsNewlines(ts);
    EatsThen(ts, SkipNewlines(ts), rest, [Newlines], p);
  }

  lemma EatsProper(ts: seq<Token>, rest: seq<Token>, p: seq<Pattern>)
    requires Eats(ts, rest, p) && Proper(ts)
    ensures Proper(rest)
  {
  }

  // ----- expressions -----

  lemma ExprSound(ts: seq<Token>)
    requires ParseExpr(ts).Ok?
    ensures Shaped(ParseExpr(ts).value, 3) && Eats(ts, ParseExpr(ts).rest, LooseExpr(ParseExpr(ts).value))
    ensures Yield(ParseExpr(ts).value) != [] && ts != [] && Yield(ParseExpr(ts).value)[0] == ts[0]
    ensures Head(ParseExpr(ts).rest) != Kind.Sub
  {
    hide Parse, Shaped, Yield, LooseExpr, Matches, Eats, Takes;
    var c := Sound(ts, 3);
    var e, rest := Parse(ts, 3).value, Parse(ts, 3).rest;
    EatsTokens(c, rest, LooseExpr(e));
    NoMinusAfter(ts);
    assert Takes(ts, rest, LooseExpr(e)) by { EatsTakes(ts, rest, LooseExpr(e)); }
    SPP.ExprFirst(ts, rest, e, 3);
  }

  /** A minus would have continued the expression. */
  lemma NoMinusAfter(ts: seq<Token>)
    requires Parse(ts, 3).Ok?
    ensures Head(Parse(ts, 3).rest) != Kind.Sub
  {
    hide Parse;
    SubparseOk(ts, 3);
    NoMinusAfterSum(ts);
    var rest := Parse(ts, 2).rest;
    if Head(rest) in OpsAt(3) {
      ParseOfCompare(ts);
      NoMinusAfterSum(Advance(rest));
    } else {
      ParseDown(ts, 3, Parse(ts, 2).value, rest);
    }
  }

  lemma NoMinusAfterSum(ts: seq<Token>)
    requires Parse(ts, 2).Ok?
    ensures Head(Parse(ts, 2).rest) != Kind.Sub
  {
    hide Parse, ParseRest;
    SubparseOk(ts, 2);
    var rest := Parse(ts, 1).rest;
    if Head(rest) in OpsAt(2) {
      ParseOfChain(ts, 2);
      NoMinusLeft(rest);
    } else {
      ParseDown(ts, 2, Parse(ts, 1).value, rest);
    }
  }

  lemma {:induction false} NoMinusLeft(ts: seq<Token>)
    requires ParseRest(ts, 2).Ok?
    ensures Head(ParseRest(ts, 2).rest) != Kind.Sub
    decreases |ts|
  {
    hide Parse;
    if Head(ts) in OpsAt(2) {
      RestUnfolds(ts, 2);
      NoMinusLeft(Parse(Advance(ts), 1).rest);
    }
  }

  // ----- types and simple statements -----

  lemma {:induction false} FieldsSound(ts: seq<Token>)
    requires Proper(ts) && ParseFields(ts).Ok?
    ensures Eats(ts, ParseFields(ts).rest, LooseFields(ParseFields(ts).value))
    decreases |ts|
  {
    hide Proper, Eats, SkipNewlines, ParseFields, LooseFields;
    FieldsUnfold(ts);
    if Head(ts) != Symbol {
      EatsNothing(ts);
      assert LooseFields([]) == [] by { SPP.NoLooseFields(); }
    } else {
      var typed := Advance(ts);
      var line := Advance(typed);
      EatsOne(ts);
      EatsOne(typed);
      LineProper(line);
      FieldsSound(SkipNewlines(line));
      var r := ParseFields(SkipNewlines(line));
      LineThen(line, r.rest, LooseFields(r.value));
      EatsTwo(ts, r.rest, [Tok(Plain(Enl)), Newlines] + LooseFields(r.value));
      FieldTokens(HeadText(ts), HeadText(typed), r.value);
    }
  }

  lemma FieldTokens(name: string, typ: string, fields: seq<Field>)
    ensures LooseFields([(name, typ)] + fields) ==
            [Tok(SymToken(name)), Tok(SymToken(typ))] + ([Tok(Plain(Enl)), Newlines] + LooseFields(fields))
  {
    assert ([(name, typ)] + fields)[1..] == fields;
  }

  lemma FieldsUnfold(ts: seq<Token>)
    requires ParseFields(ts).Ok?
    ensures Head(ts) != Symbol ==> ParseFields(ts) == Ok([], ts)
    ensures Head(ts) == Symbol ==>
              var typed := Advance(ts);
              var r := ParseFields(SkipNewlines(Advance(typed)));
              && Head(typed) == Symbol && Head(Advance(typed)) == Enl && r.Ok?
              && ParseFields(ts) == Ok([(HeadText(ts), HeadText(typed))] + r.value, r.rest)
  {
    hide SkipNewlines;
  }

  lemma LineProper(ts: seq<Token>)
    requires Proper(ts) && Head(ts) == Enl
    ensures Proper(SkipNewlines(ts))
  {
    hide Proper, Eats;
    EatsNewlines(ts);
    EatsProper(ts, SkipNewlines(ts), [Newlines]);
  }

  /** The end of a line, then something. */
  lemma LineThen(ts: seq<Token>, rest: seq<Token>, p: seq<Pattern>)
    requires Head(ts) == Enl && Eats(SkipNewlines(ts), rest, p)
    ensures Eats(ts, rest, [Tok(Plain(Enl)), Newlines] + p)
  {
    hide Proper, Eats;
    assert SkipNewlines(ts) == SkipNewlines(Advance(ts));
    EatsOne(ts);
    EatsAfterNewlines(Advance(ts), rest, p);
    EatsToken(ts, rest, [Newlines] + p);
    assert [Tok(Plain(Enl))] + ([Newlines] + p) == [Tok(Plain(Enl)), Newlines] + p;
  }

  lemma TypeSound(ts: seq<Token>)
    requires Proper(ts)
    ensures Eats(ts, ParseVarType(ts).1, LooseType(ParseVarType(ts).0)) && Proper(ParseVarType(ts).1)
    ensures ParseVarType(ts).0 == Named("") ==> ParseVarType(ts).1 == ts && Head(ts) != Symbol
  {
    hide Proper, Eats, ParseStruct, LooseFields;
    if ParseStruct(ts).Ok? {
      StructSound(ts);
      EatsProper(ts, ParseStruct(ts).rest, LooseType(StructType(ParseStruct(ts).value)));
    } else if Head(ts) == Symbol {
      EatsOne(ts);
    } else {
      EatsNothing(ts);
    }
  }

  lemma StructSound(ts: seq<Token>)
    requires Proper(ts) && ParseStruct(ts).Ok?
    ensures Eats(ts, ParseStruct(ts).rest, LooseType(StructType(ParseStruct(ts).value)))
  {
    hide Proper, Eats, SkipNewlines, ParseFields, LooseFields;
    var inner := Advance(Advance(ts));
    EatsOne(ts);
    EatsOne(Advance(ts));
    EatsNewlines(inner);
    EatsProper(inner, SkipNewlines(inner), [Newlines]);
    FieldsSound(SkipNewlines(inner));
    var r := ParseFields(SkipNewlines(inner));
    EatsOne(r.rest);
    var p := LooseFields(r.value) + [Tok(Plain(RBrace))];
    EatsThen(SkipNewlines(inner), r.rest, Advance(r.rest), LooseFields(r.value), [Tok(Plain(RBrace))]);
    EatsAfterNewlines(inner, Advance(r.rest), p);
    EatsTwo(ts, Advance(r.rest), [Newlines] + p);
    StructLine(p);
  }

  lemma StructLine(p: seq<Pattern>)
    ensures [Tok(Plain(Struct)), Tok(Plain(LBrace))] + ([Newlines] + p) ==
            [Tok(Plain(Struct)), Tok(Plain(LBrace)), Newlines] + p
  {
  }

  lemma DeclarationSound(ts: seq<Token>)
    requires Proper(ts) && ParseDeclaration(ts).Ok?
    ensures var r := ParseDeclaration(ts); Shaped(r.value.expr, 3) && Eats(ts, r.rest, LooseDeclaration(r.value))
  {
    hide Proper, Eats, ParseVarType, ParseExpr, Shaped, LooseExpr, LooseType;
    var inner := Advance(Advance(ts));
    EatsOne(ts);
    EatsOne(Advance(ts));
    TypeSound(inner);
    var (t, typed) := ParseVarType(inner);
    EatsOne(typed);
    ExprSound(Advance(typed));
    var r := ParseExpr(Advance(typed));
    EatsToken(typed, r.rest, LooseExpr(r.value));
    EatsThen(inner, typed, r.rest, LooseType(t), [Tok(Plain(Assign))] + LooseExpr(r.value));
    EatsTwo(ts, r.rest, LooseType(t) + ([Tok(Plain(Assign))] + LooseExpr(r.value)));
  }

  lemma AssignmentSound(ts: seq<Token>)
    requires Proper(ts) && ParseAssignment(ts).Ok?
    ensures var r := ParseAssignment(ts); Shaped(r.value.expr, 3) && Eats(ts, r.rest, LooseAssignment(r.value))
  {
    hide Proper, Eats, ParseExpr, Shaped, LooseExpr;
    var inner := Advance(Advance(ts));
    EatsOne(ts);
    EatsOne(Advance(ts));
    ExprSound(inner);
    EatsTwo(ts, ParseExpr(inner).rest, LooseExpr(ParseExpr(inner).value));
  }

  lemma {:induction false} ExprsSound(ts: seq<Token>)
    ensures var (es, rest) := ParseExprs(ts);
            && Separate(es) && Eats(ts, rest, LooseExprs(es))
            && (es != [] ==> ParseExpr(ts).Ok? && es[0] == ParseExpr(ts).value)
    decreases |ts|
  {
    hide Proper, Eats, ParseExpr, Shaped, Yield, LooseExpr;
    if ParseExpr(ts).Err? {
      EatsNothing(ts);
    } else {
      var r := ParseExpr(ts);
      ExprSound(ts);
      ExprsSound(r.rest);
      var (es, last) := ParseExprs(r.rest);
      EatsThen(ts, r.rest, last, LooseExpr(r.value), LooseExprs(es));
      assert ([r.value] + es)[1..] == es;
      if es != [] {
        ExprSound(r.rest);
        SeparateMore(r.value, es, r.rest[0]);
      }
    }
  }

  lemma SeparateMore(e: Expr, es: seq<Expr>, t: Token)
    requires Shaped(e, 3) && Separate(es) && es != []
    requires t.Kind() != Kind.Sub && Yield(es[0]) != [] && Yield(es[0])[0] == t
    ensures Separate([e] + es)
  {
    hide Shaped, Yield;
  }

  lemma ReturnSound(ts: seq<Token>)
    requires ParseReturn(ts).Ok?
    ensures var r := ParseReturn(ts); r.value.ReturnNode? && WellShaped(r.value) && Eats(ts, r.rest, LooseNode(r.value))
  {
    hide Proper, Eats, ParseExprs, Separate, LooseExprs;
    EatsOne(ts);
    ExprsSound(Advance(ts));
    var (es, rest) := ParseExprs(Advance(ts));
    EatsToken(ts, rest, LooseExprs(es));
  }

  lemma TypedefSound(ts: seq<Token>)
    requires Proper(ts) && ParseTypedef(ts).Ok?
    ensures var r := ParseTypedef(ts); WellShaped(r.value) && Eats(ts, r.rest, LooseNode(r.value))
  {
    hide Proper, Eats, ParseVarType, LooseType;
    EatsOne(ts);
    TypeSound(Advance(ts));
    var (t, rest) := ParseVarType(Advance(ts));
    EatsOne(rest);
    EatsThen(Advance(ts), rest, Advance(rest), LooseType(t), [Tok(rest[0])]);
    EatsToken(ts, Advance(rest), LooseType(t) + [Tok(rest[0])]);
  }

  // ----- function headers -----

  lemma {:induction false} ParamsSound(ts: seq<Token>)
    requires Proper(ts) && ParseParams(ts).Ok?
    ensures Eats(ts, ParseParams(ts).rest, LooseParams(ParseParams(ts).value))
    decreases |ts|
  {
    hide Proper, Eats, ParseParams, LooseParams;
    ParamsUnfold(ts);
    if Head(ts) != Symbol {
      EatsNothing(ts);
      assert LooseParams([]) == [] by { SPP.NoLooseParams(); }
    } else {
      var typed := Advance(Advance(ts));
      EatsOne(ts);
      EatsOne(Advance(ts));
      var next := if Head(typed) == Comma then Advance(typed) else typed;
      CommaOrNot(typed);
      EatsProper(typed, next, [OptComma]);
      ParamsSound(next);
      var r := ParseParams(next);
      EatsThen(typed, next, r.rest, [OptComma], LooseParams(r.value));
      EatsTwo(ts, r.rest, [OptComma] + LooseParams(r.value));
      ParamTokens(HeadText(ts), HeadText(Advance(ts)), r.value);
    }
  }

  lemma ParamTokens(name: string, typ: string, params: seq<Field>)
    ensures LooseParams([(name, typ)] + params) ==
            [Tok(SymToken(name)), Tok(SymToken(typ))] + ([OptComma] + LooseParams(params))
  {
    assert ([(name, typ)] + params)[1..] == params;
  }

  lemma ParamsUnfold(ts: seq<Token>)
    requires ParseParams(ts).Ok?
    ensures Head(ts) != Symbol ==> ParseParams(ts) == Ok([], ts)
    ensures Head(ts) == Symbol ==>
              var typed := Advance(Advance(ts));
              var r := ParseParams(if Head(typed) == Comma then Advance(typed) else typed);
              && Head(Advance(ts)) == Symbol && r.Ok?
              && ParseParams(ts) == Ok([(HeadText(ts), HeadText(Advance(ts)))] + r.value, r.rest)
  {
  }

  lemma CommaOrNot(ts: seq<Token>)
    ensures Eats(ts, if Head(ts) == Comma then Advance(ts) else ts, [OptComma])
  {
    hide Proper;
    if Head(ts) == Comma {
      EatsOne(ts);
    } else {
      MatchComma([]);
    }
  }

  lemma {:induction false} ResultsSound(ts: seq<Token>)
    requires Proper(ts)
    ensures Eats(ts, ParseResults(ts).1, LooseResults(ParseResults(ts).0))
    decreases |ts|
  {
    hide Proper, Eats;
    if Head(ts) != Symbol {
      EatsNothing(ts);
    } else {
      EatsOne(ts);
      ResultsSound(Advance(ts));
      var (names, rest) := ParseResults(Advance(ts));
      EatsToken(ts, rest, LooseResults(names));
      assert ([HeadText(ts)] + names)[1..] == names;
    }
  }

  /** The closing parenthesis and the result types, then something. */
  lemma ResultsThen(ts: seq<Token>, rest: seq<Token>, p: seq<Pattern>)
    requires Proper(ts) && Head(ts) == RParent && Eats(ParseResults(Advance(ts)).1, rest, p)
    ensures Eats(ts, rest, [Tok(Plain(RParent))] + (LooseResults(ParseResults(Advance(ts)).0) + p))
  {
    hide Proper, Eats, ParseResults, LooseResults;
    EatsOne(ts);
    ResultsSound(Advance(ts));
    var (results, last) := ParseResults(Advance(ts));
    EatsThen(Advance(ts), last, rest, LooseResults(results), p);
    EatsToken(ts, rest, LooseResults(results) + p);
  }

  /** A signature, then something. */
  lemma SignatureSound(ts: seq<Token>, rest: seq<Token>, p: seq<Pattern>)
    requires Proper(ts) && ParseSignature(ts).Ok? && Eats(ParseSignature(ts).rest, rest, p)
    ensures var (name, params, results) := ParseSignature(ts).value;
            Eats(ts, rest, [Tok(Plain(Func)), Tok(SymToken(name)), Tok(Plain(LParent))]
                           + (LooseParams(params) + ([Tok(Plain(RParent))] + (LooseResults(results) + p))))
  {
    hide Proper, Eats, ParseParams, ParseResults, LooseParams, LooseResults;
    var named := Advance(ts);
    assert Head(named) == Symbol by { NamedFunction(ts); }
    var open := Advance(named);
    EatsOne(ts);
    EatsOne(named);
    EatsOne(open);
    ParamsSound(Advance(open));
    var params, close := ParseParams(Advance(open)).value, ParseParams(Advance(open)).rest;
    EatsProper(Advance(open), close, LooseParams(params));
    ResultsThen(close, rest, p);
    var tail := [Tok(Plain(RParent))] + (LooseResults(ParseResults(Advance(close)).0) + p);
    EatsThen(Advance(open), close, rest, LooseParams(params), tail);
    NameSound(ts, rest, LooseParams(params) + tail);
  }

  lemma NameSound(ts: seq<Token>, rest: seq<Token>, p: seq<Pattern>)
    requires Proper(ts) && Head(ts) == Func && Head(Advance(ts)) == Symbol && Head(Advance(Advance(ts))) == LParent
    requires Eats(Advance(Advance(Advance(ts))), rest, p)
    ensures Eats(ts, rest, [Tok(Plain(Func)), Tok(SymToken(HeadText(Advance(ts)))), Tok(Plain(LParent))] + p)
  {
    hide Proper, Eats;
    EatsOne(ts);
    EatsOne(Advance(ts));
    EatsOne(Advance(Advance(ts)));
    EatsToken(Advance(Advance(ts)), rest, p);
    EatsTwo(ts, rest, [Tok(Plain(LParent))] + p);
    var f, n := Tok(Plain(Func)), Tok(SymToken(HeadText(Advance(ts))));
    assert [f, n] + ([Tok(Plain(LParent))] + p) == [f, n, Tok(Plain(LParent))] + p;
  }

  lemma NamedFunction(ts: seq<Token>)
    requires Proper(ts) && ParseSignature(ts).Ok?
    ensures Head(Advance(ts)) == Symbol
  {
    hide ParseParams, ParseResults;
    assert ts[0].Kind() == Func && |ts| > 1;
  }

  // ----- statements with blocks -----

  /** What is shown of a node that was read from `ts`. */
  ghost predicate NodeFrom(ts: seq<Token>, n: Node, rest: seq<Token>) {
    WellShaped(n) && Eats(ts, rest, LooseNode(n))
  }

  lemma {:induction false} BodySound(ts: seq<Token>)
    requires Proper(ts) && ParseBody(ts).Ok?
    ensures var r := ParseBody(ts); WellShapedBlock(r.value) && Eats(ts, r.rest, LooseBody(r.value))
    decreases |ts|, 0
  {
    hide Proper, Eats, SkipNewlines, ParseNodes, LooseAfter, WellShaped;
    var inner := SkipNewlines(Advance(ts));
    EatsOne(ts);
    EatsNewlines(Advance(ts));
    EatsProper(Advance(ts), inner, [Newlines]);
    NodesSound(inner);
    SkippedAlready(inner);
    var r := ParseNodes(inner);
    var p := LooseAfter(r.value, 0);
    EatsOne(r.rest);
    EatsThen(inner, r.rest, Advance(r.rest), p + [Newlines], [Tok(Plain(RBrace))]);
    assert p + [Newlines] + [Tok(Plain(RBrace))] == p + [Newlines, Tok(Plain(RBrace))];
    EatsAfterNewlines(Advance(ts), Advance(r.rest), p + [Newlines, Tok(Plain(RBrace))]);
    EatsToken(ts, Advance(r.rest), [Newlines] + (p + [Newlines, Tok(Plain(RBrace))]));
    BraceLine(p + [Newlines, Tok(Plain(RBrace))]);
  }

  lemma BraceLine(p: seq<Pattern>)
    ensures [Tok(Plain(LBrace))] + ([Newlines] + p) == [Tok(Plain(LBrace)), Newlines] + p
  {
  }

  lemma SkippedAlready(ts: seq<Token>)
    requires Head(ts) != Enl
    ensures SkipNewlines(ts) == ts
  {
  }

  lemma {:induction false} FunctionSound(ts: seq<Token>)
    requires Proper(ts) && ParseFunction(ts).Ok?
    ensures NodeFrom(ts, ParseFunction(ts).value, ParseFunction(ts).rest)
    decreases |ts|, 1
  {
    hide Proper, Eats, ParseSignature, ParseBody, LooseBody, LooseParams, LooseResults, WellShapedBlock;
    var after := ParseSignature(ts).rest;
    var (name, params, results) := ParseSignature(ts).value;
    EatsNothing(after);
    SignatureSound(ts, after, []);
    EatsProper(ts, after, [Tok(Plain(Func)), Tok(SymToken(name)), Tok(Plain(LParent))]
                          + (LooseParams(params) + ([Tok(Plain(RParent))] + (LooseResults(results) + []))));
    BodySound(after);
    var r := ParseBody(after);
    SignatureSound(ts, r.rest, LooseBody(r.value));
  }

  lemma {:induction false} BranchSound(ts: seq<Token>)
    requires Proper(ts) && ParseBranch(ts).Ok?
    ensures var r := ParseBranch(ts);
            && Shaped(r.value.cond, 3) && WellShapedBlock(r.value.block) && Proper(r.rest)
            && Eats(ts, r.rest, LooseExpr(r.value.cond) + LooseBody(r.value.block))
    decreases |ts|, 1
  {
    hide Proper, Eats, ParseExpr, ParseBody, LooseExpr, LooseBody, Shaped, WellShapedBlock;
    ExprSound(ts);
    var e := ParseExpr(ts);
    EatsProper(ts, e.rest, LooseExpr(e.value));
    BodySound(e.rest);
    var r := ParseBody(e.rest);
    EatsThen(ts, e.rest, r.rest, LooseExpr(e.value), LooseBody(r.value));
    EatsProper(e.rest, r.rest, LooseBody(r.value));
  }

  /** The branches from the second on are the branches of a node without the first. */
  lemma {:induction false} BranchesShift(b: Branch, branches: seq<Branch>, tailElse: Option<Block>, i: nat)
    ensures i < |branches| ==>
              LooseBranches(IfNode([b] + branches, tailElse), i + 1) == LooseBranches(IfNode(branches, tailElse), i)
    ensures 0 < i <= |branches| ==>
              LooseElse(IfNode([b] + branches, tailElse), i + 1) == LooseElse(IfNode(branches, tailElse), i)
    decreases |branches| - i
  {
    hide LooseExpr, LooseBody;
    if i < |branches| {
      BranchesShift(b, branches, tailElse, i + 1);
    }
  }

  lemma {:induction false} BranchesSound(ts: seq<Token>)
    requires Proper(ts) && ParseBranches(ts).Ok?
    ensures var r := ParseBranches(ts);
            var n := IfNode(r.value.0, r.value.1);
            r.value.0 != [] && WellShaped(n) && Eats(ts, r.rest, LooseBranches(n, 0))
    decreases |ts|, 2
  {
    hide Proper, Eats, ParseBranch, ParseElse, ParseBranches, LooseExpr, LooseBody, LooseBranches, Shaped,
         WellShapedBlock;
    BranchesUnfold(ts);
    BranchSound(ts);
    var b, after := ParseBranch(ts).value, ParseBranch(ts).rest;
    var (more, tailElse) := ParseElse(after).value;
    var next := ParseElse(after).rest;
    var n := IfNode(ParseBranches(ts).value.0, ParseBranches(ts).value.1);
    assert LooseBranches(n, 0) == LooseExpr(b.cond) + (LooseBody(b.block) + LooseElse(n, 1)) by { FirstBranch(n, b); }
    var p := LooseExpr(b.cond) + LooseBody(b.block);
    assert LooseExpr(b.cond) + (LooseBody(b.block) + LooseElse(n, 1)) == p + LooseElse(n, 1);
    if more {
      ElseIf(after);
      BranchesSound(next);
      var r := ParseBranches(next);
      var m := IfNode(r.value.0, r.value.1);
      EatsTwo(after, r.rest, LooseBranches(m, 0));
      BranchesShift(b, r.value.0, r.value.1, 0);
      assert LooseElse(n, 1) == [Tok(Plain(Else)), Tok(Plain(If))] + LooseBranches(m, 0);
      EatsThen(ts, after, r.rest, p, LooseElse(n, 1));
      ShapedMore(b, m);
    } else {
      LastElse(after, b);
      EatsThen(ts, after, next, p, LooseElse(n, 1));
    }
  }

  lemma ShapedMore(b: Branch, m: Node)
    requires m.IfNode? && WellShaped(m) && Shaped(b.cond, 3) && WellShapedBlock(b.block)
    ensures WellShaped(IfNode([b] + m.branches, m.tailElse))
  {
    hide Shaped, WellShapedBlock;
  }

  lemma FirstBranch(n: Node, b: Branch)
    requires n.IfNode? && n.branches != [] && n.branches[0] == b
    ensures LooseBranches(n, 0) == LooseExpr(b.cond) + (LooseBody(b.block) + LooseElse(n, 1))
  {
    hide LooseExpr, LooseBody;
  }

  lemma BranchesUnfold(ts: seq<Token>)
    requires ParseBranches(ts).Ok?
    ensures ParseBranch(ts).Ok? && ParseElse(ParseBranch(ts).rest).Ok?
    ensures var b, e := ParseBranch(ts).value, ParseElse(ParseBranch(ts).rest);
            if !e.value.0 then ParseBranches(ts) == Ok(([b], e.value.1), e.rest)
            else ParseBranches(e.rest).Ok? &&
                 var r := ParseBranches(e.rest);
                 ParseBranches(ts) == Ok(([b] + r.value.0, r.value.1), r.rest)
  {
    hide ParseBranch, ParseElse;
  }

  lemma ElseIf(ts: seq<Token>)
    requires Proper(ts) && ParseElse(ts).Ok? && ParseElse(ts).value.0
    ensures Head(ts) == Else && Head(Advance(ts)) == If && ParseElse(ts).rest == Advance(Advance(ts))
    ensures ts[0] == Plain(Else) && Advance(ts)[0] == Plain(If) && Proper(Advance(Advance(ts)))
  {
    hide Proper, ParseBody;
    EatsOne(ts);
    EatsOne(Advance(ts));
  }

  lemma {:induction false} LastElse(ts: seq<Token>, b: Branch)
    requires Proper(ts) && ParseElse(ts).Ok? && !ParseElse(ts).value.0
    requires Shaped(b.cond, 3) && WellShapedBlock(b.block)
    ensures var n := IfNode([b], ParseElse(ts).value.1); WellShaped(n) && Eats(ts, ParseElse(ts).rest, LooseElse(n, 1))
    decreases |ts|, 1
  {
    hide Proper, Eats, ParseBody, LooseExpr, LooseBody, Shaped, WellShapedBlock;
    if Head(ts) != Else {
      EatsNothing(ts);
    } else {
      EatsOne(ts);
      BodySound(Advance(ts));
      var r := ParseBody(Advance(ts));
      EatsToken(ts, r.rest, LooseBody(r.value));
    }
  }

  lemma {:induction false} IfSound(ts: seq<Token>)
    requires Proper(ts) && ParseIf(ts).Ok?
    ensures NodeFrom(ts, ParseIf(ts).value, ParseIf(ts).rest)
    decreases |ts|, 3
  {
    hide Proper, Eats, ParseBranches, LooseBranches, WellShaped;
    EatsOne(ts);
    BranchesSound(Advance(ts));
    var r := ParseBranches(Advance(ts));
    EatsToken(ts, r.rest, LooseBranches(IfNode(r.value.0, r.value.1), 0));
  }

  /** An optional part of a loop header is read, or is absent and nothing is. */
  lemma InitSound(ts: seq<Token>)
    requires Proper(ts)
    ensures var (init, rest) := ParseInit(ts);
            (init.Some? ==> Shaped(init.value.expr, 3)) && Proper(rest) && Eats(ts, rest, LooseInit(init))
  {
    hide Proper, Eats, ParseDeclaration, LooseDeclaration, Shaped;
    match ParseDeclaration(ts) {
      case Ok(d, r) =>
        DeclarationSound(ts);
        EatsProper(ts, r, LooseDeclaration(d));
      case Err(_) => EatsNothing(ts);
    }
  }

  lemma CondSound(ts: seq<Token>)
    requires Proper(ts)
    ensures var (cond, rest) := ParseCond(ts);
            (cond.Some? ==> Shaped(cond.value, 3)) && Proper(rest) && Eats(ts, rest, LooseCond(cond))
  {
    hide Proper, Eats, ParseExpr, LooseExpr, Shaped;
    match ParseExpr(ts) {
      case Ok(e, r) =>
        ExprSound(ts);
        EatsProper(ts, r, LooseExpr(e));
      case Err(_) => EatsNothing(ts);
    }
  }

  lemma StepSound(ts: seq<Token>)
    requires Proper(ts)
    ensures var (step, rest) := ParseStep(ts);
            (step.Some? ==> Shaped(step.value.expr, 3)) && Proper(rest) && Eats(ts, rest, LooseStep(step))
  {
    hide Proper, Eats, ParseAssignment, LooseAssignment, Shaped;
    match ParseAssignment(ts) {
      case Ok(a, r) =>
        AssignmentSound(ts);
        EatsProper(ts, r, LooseAssignment(a));
      case Err(_) => EatsNothing(ts);
    }
  }

  /** The parts of a loop header, from after `for` to the body, and where the body starts. */
  function Header(ts: seq<Token>): (Option<Declaration>, Option<Expr>, Option<Assignment>, seq<Token>, bool) {
    var (init, a) := ParseInit(ts);
    var (cond, b) := ParseCond(Advance(a));
    var (step, c) := ParseStep(Advance(b));
    (init, cond, step, c, Head(a) == Semicolon && Head(b) == Semicolon)
  }

  lemma ForUnfolds(ts: seq<Token>)
    requires ParseFor(ts).Ok?
    ensures Head(ts) == For
    ensures var (init, cond, step, c, ok) := Header(Advance(ts));
            && ok && ParseBody(c).Ok?
            && ParseFor(ts) == Ok(ForNode(init, cond, step, ParseBody(c).value), ParseBody(c).rest)
  {
    hide ParseInit, ParseCond, ParseStep, ParseBody;
  }

  lemma HeaderParts(ts: seq<Token>)
    requires Proper(ts) && Header(ts).4
    ensures var (init, cond, step, c, ok) := Header(ts);
            && (init.Some? ==> Shaped(init.value.expr, 3)) && (cond.Some? ==> Shaped(cond.value, 3))
            && (step.Some? ==> Shaped(step.value.expr, 3)) && Proper(c)
  {
    hide Proper, Eats, ParseInit, ParseCond, ParseStep, Shaped;
    InitSound(ts);
    var a := ParseInit(ts).1;
    EatsOne(a);
    CondSound(Advance(a));
    var b := ParseCond(Advance(a)).1;
    EatsOne(b);
    StepSound(Advance(b));
  }

  /** A loop header, then something. */
  lemma HeaderSound(ts: seq<Token>, rest: seq<Token>, p: seq<Pattern>)
    requires Proper(ts) && Header(ts).4 && Eats(Header(ts).3, rest, p)
    ensures var (init, cond, step, c, ok) := Header(ts); Eats(ts, rest, LooseHeader(init, cond, step, p))
  {
    hide Proper, Eats, ParseInit, ParseCond, ParseStep, LooseInit, LooseCond, LooseStep, Shaped;
    var (init, cond, step, c, _) := Header(ts);
    InitSound(ts);
    var a := ParseInit(ts).1;
    EatsOne(a);
    CondSound(Advance(a));
    var b := ParseCond(Advance(a)).1;
    EatsOne(b);
    StepSound(Advance(b));
    EatsThen(Advance(b), c, rest, LooseStep(step), p);
    EatsToken(b, rest, LooseStep(step) + p);
    var q := [Tok(Plain(Semicolon))] + (LooseStep(step) + p);
    EatsThen(Advance(a), b, rest, LooseCond(cond), q);
    EatsToken(a, rest, LooseCond(cond) + q);
    EatsThen(ts, a, rest, LooseInit(init), [Tok(Plain(Semicolon))] + (LooseCond(cond) + q));
  }

  lemma {:induction false} ForSound(ts: seq<Token>)
    requires Proper(ts) && ParseFor(ts).Ok?
    ensures NodeFrom(ts, ParseFor(ts).value, ParseFor(ts).rest)
    decreases |ts|, 1
  {
    hide Proper, Eats, ParseFor, Header, ParseBody, LooseHeader, LooseBody, Shaped, WellShapedBlock;
    ForUnfolds(ts);
    EatsOne(ts);
    HeaderParts(Advance(ts));
    var (init, cond, step, c, _) := Header(Advance(ts));
    HeaderProgress(Advance(ts));
    BodySound(c);
    var r := ParseBody(c);
    HeaderSound(Advance(ts), r.rest, LooseBody(r.value));
    EatsToken(ts, r.rest, LooseHeader(init, cond, step, LooseBody(r.value)));
  }

  lemma HeaderProgress(ts: seq<Token>)
    ensures |Header(ts).3| <= |ts|
  {
    hide ParseInit, ParseCond, ParseStep;
  }

  lemma {:induction false} KeywordSound(ts: seq<Token>)
    requires Proper(ts) && ParseKeywordNode(ts).Ok?
    ensures NodeFrom(ts, ParseKeywordNode(ts).value, ParseKeywordNode(ts).rest)
    decreases |ts|, 4
  {
    hide Proper, NodeFrom, ParseIf, ParseFunction, ParseReturn, ParseFor, ParseTypedef, WellShaped, LooseNode;
    if ParseIf(ts) != Err(false) {
      IfSound(ts);
    } else if ParseFunction(ts) != Err(false) {
      FunctionSound(ts);
    } else if ParseReturn(ts) != Err(false) {
      ReturnSound(ts);
      Shown(ts, ParseReturn(ts).value, ParseReturn(ts).rest);
    } else if ParseFor(ts) != Err(false) {
      ForSound(ts);
    } else {
      TypedefSound(ts);
      Shown(ts, ParseTypedef(ts).value, ParseTypedef(ts).rest);
    }
  }

  lemma Shown(ts: seq<Token>, n: Node, rest: seq<Token>)
    requires WellShaped(n) && Eats(ts, rest, LooseNode(n))
    ensures NodeFrom(ts, n, rest)
  {
  }

  /** Every statement the parser returns is well shaped, and was read from a way to write it. */
  lemma {:induction false} NodeSound(ts: seq<Token>)
    requires Proper(ts) && ParseNode(ts).Ok?
    ensures NodeFrom(ts, ParseNode(ts).value, ParseNode(ts).rest)
    decreases |ts|, 5
  {
    hide Proper, Eats, ParseDeclaration, ParseAssignment, ParseExpr, ParseKeywordNode, LooseExpr, Shaped,
         LooseDeclaration, LooseAssignment;
    if ParseDeclaration(ts).Ok? {
      DeclarationSound(ts);
    } else if ParseAssignment(ts).Ok? {
      AssignmentSound(ts);
    } else if ParseExpr(ts).Ok? {
      ExprSound(ts);
    } else {
      KeywordSound(ts);
    }
  }

  // ----- what stands between statements -----

  /** Each keyword has its parser. */
  lemma KeywordIs(ts: seq<Token>)
    requires ParseKeywordNode(ts).Ok?
    ensures Head(ts) in {If, Func, Return, For, Typedef}
    ensures Head(ts) == If ==> ParseKeywordNode(ts) == ParseIf(ts) && ParseIf(ts).value.IfNode?
    ensures Head(ts) == Func ==> ParseKeywordNode(ts) == ParseFunction(ts) && ParseFunction(ts).value.FuncNode?
    ensures Head(ts) == Return ==> ParseKeywordNode(ts) == ParseReturn(ts) && ParseReturn(ts).value.ReturnNode?
    ensures Head(ts) == For ==> ParseKeywordNode(ts) == ParseFor(ts) && ParseFor(ts).value.ForNode?
    ensures Head(ts) == Typedef ==> ParseKeywordNode(ts) == ParseTypedef(ts) && ParseTypedef(ts).value.TypedefNode?
  {
    hide ParseExprs, ParseVarType, ParseBranches, ParseParams, ParseResults, ParseBody, ParseInit, ParseCond, ParseStep;
  }

  /** A statement starts with the token it is read from. */
  lemma FirstIs(ts: seq<Token>)
    requires ParseNode(ts).Ok?
    ensures FirstKind(ParseNode(ts).value) == Head(ts) && Head(ts) != Enl
  {
    hide ParseExpr, ParseVarType, ParseKeywordNode, Yield, YieldNode, Shaped, Eats, LooseExpr;
    if ParseDeclaration(ts).Ok? {
      SPP.FirstOf(ParseNode(ts).value);
    } else if ParseAssignment(ts).Ok? {
      SPP.FirstOf(ParseNode(ts).value);
    } else if ParseExpr(ts).Ok? {
      ExprSound(ts);
      ExprHead(ts);
      SPP.FirstOf(ParseNode(ts).value);
    } else {
      KeywordIs(ts);
      SPP.FirstOf(ParseNode(ts).value);
    }
  }

  lemma ExprHead(ts: seq<Token>)
    requires ParseExpr(ts).Ok?
    ensures LiteralKind(Head(ts)) || Head(ts) == Kind.Sub
  {
    hide Parse;
    if !LiteralKind(Head(ts)) && Head(ts) != Kind.Sub {
      NoExpression(ts, 3);
    }
  }

  /** Where no expression can be read, no statement starts with what starts one. */
  lemma NoExprNode(ts: seq<Token>)
    requires ParseExpr(ts).Err? && ParseNode(ts).Ok?
    ensures !LiteralKind(Head(ts)) && Head(ts) != Kind.Sub
  {
    hide ParseNode, ParseExpr, ParseDeclaration, ParseAssignment, ParseKeywordNode, Advance;
    NodeCases(ts);
    SimpleHeads(ts);
    if ParseAssignment(ts).Ok? {
      NameIsExpr(ts);
    } else if ParseDeclaration(ts).Err? {
      KeywordHead(ts);
    }
  }

  lemma NodeCases(ts: seq<Token>)
    requires ParseNode(ts).Ok?
    ensures ParseDeclaration(ts).Ok? || ParseAssignment(ts).Ok? || ParseExpr(ts).Ok? || ParseKeywordNode(ts).Ok?
  {
    hide ParseExpr, ParseDeclaration, ParseAssignment, ParseKeywordNode;
  }

  lemma KeywordHead(ts: seq<Token>)
    requires ParseKeywordNode(ts).Ok?
    ensures Head(ts) in {If, Func, Return, For, Typedef}
  {
    hide ParseKeywordNode, ParseIf, ParseFunction, ParseReturn, ParseFor, ParseTypedef;
    KeywordIs(ts);
  }

  lemma SimpleHeads(ts: seq<Token>)
    ensures ParseDeclaration(ts).Ok? ==> Head(ts) == Var
    ensures ParseAssignment(ts).Ok? ==> Head(ts) == Symbol && Head(Advance(ts)) == Assign
  {
    hide ParseExpr, ParseVarType;
  }

  lemma NameIsExpr(ts: seq<Token>)
    requires Head(ts) == Symbol && Head(Advance(ts)) == Assign
    ensures ParseExpr(ts).Ok?
  {
    hide Parse;
    ParseAtomicToken(ts);
    ParseDown(ts, 1, Atom(ts[0]), ts[1..]);
    ParseDown(ts, 2, Atom(ts[0]), ts[1..]);
    ParseDown(ts, 3, Atom(ts[0]), ts[1..]);
  }

  lemma {:induction false} NoExprAfter(ts: seq<Token>)
    ensures ParseExpr(ParseExprs(ts).1).Err?
    decreases |ts|
  {
    hide ParseExpr;
    if ParseExpr(ts).Ok? {
      NoExprAfter(ParseExpr(ts).rest);
    }
  }

  /** What follows a statement without a newline does not run into it. */
  lemma NoMerge(ts: seq<Token>)
    requires ParseNode(ts).Ok? && ParseNode(ParseNode(ts).rest).Ok?
    ensures !Merges(ParseNode(ts).value, ParseNode(ParseNode(ts).rest).value)
  {
    hide ParseNode, YieldNode;
    var r := ParseNode(ts);
    FirstIs(r.rest);
    NodeEnds(ts);
    if r.value.ReturnNode? {
      NoExprNode(r.rest);
    }
  }

  lemma NodeEnds(ts: seq<Token>)
    requires ParseNode(ts).Ok?
    ensures var r := ParseNode(ts);
            && (r.value.DeclNode? || r.value.AsgnNode? || r.value.ExprNode? ==> Head(r.rest) != Kind.Sub)
            && (r.value.ReturnNode? ==> ParseExpr(r.rest).Err?)
  {
    hide ParseExpr, ParseVarType, ParseKeywordNode, ParseExprs, Yield, Shaped, Eats, LooseExpr;
    if ParseDeclaration(ts).Ok? {
      ExprSound(Advance(ParseVarType(Advance(Advance(ts))).1));
    } else if ParseAssignment(ts).Ok? {
      ExprSound(Advance(Advance(ts)));
    } else if ParseExpr(ts).Ok? {
      ExprSound(ts);
    } else {
      KeywordIs(ts);
      if Head(ts) == Return {
        NoExprAfter(Advance(ts));
      }
    }
  }

  lemma {:induction false} AfterShift(n: Node, nodes: seq<Node>, i: nat)
    ensures LooseAfter([n] + nodes, i + 1) == LooseAfter(nodes, i)
    decreases |nodes| - i
  {
    hide LooseNode, Gap, LooseAfter;
    var all := [n] + nodes;
    SPP.AfterStep(nodes, i);
    SPP.AfterStep(all, i + 1);
    if i < |nodes| {
      assert all[i + 1] == nodes[i];
      AfterShift(n, nodes, i + 1);
    }
  }

  lemma FirstThen(n: Node, nodes: seq<Node>)
    ensures LooseAfter([n] + nodes, 0) ==
            if nodes == [] then LooseNode(n) else LooseNode(n) + (Gap(n, nodes[0]) + LooseAfter(nodes, 0))
  {
    hide LooseNode, Gap, LooseAfter;
    AfterShift(n, nodes, 0);
    SPP.AfterStep([n] + nodes, 0);
  }

  /** Newlines, at least one where the statements would merge. */
  lemma GapSound(ts: seq<Token>, n: Node, m: Node)
    requires Merges(n, m) ==> Head(ts) == Enl
    ensures Eats(ts, SkipNewlines(ts), Gap(n, m))
  {
    hide Proper, Merges;
    EatsNewlines(ts);
    if Head(ts) == Enl {
      var rest := SkipNewlines(ts);
      EatsNewlines(Advance(ts));
      var c := Advance(ts)[..|Advance(ts)| - |rest|];
      MatchNewline(c);
      EatsOne(ts);
      assert [ts[0]] + c == ts[..|ts| - |rest|];
    }
  }

  lemma {:induction false} NodesSound(ts: seq<Token>)
    requires Proper(ts) && ParseNodes(ts).Ok?
    ensures var r := ParseNodes(ts);
            WellShapedBlock(Block(r.value)) && Eats(SkipNewlines(ts), r.rest, LooseAfter(r.value, 0) + [Newlines])
    ensures Head(ParseNodes(ts).rest) != Enl
    decreases |ts|, 6
  {
    hide Proper, Eats, SkipNewlines, ParseNode, LooseNode, LooseAfter, Gap, WellShaped;
    var t := SkipNewlines(ts);
    EatsNewlines(ts);
    EatsProper(ts, t, [Newlines]);
    if ParseNode(t).Err? {
      EatsNoNewline(t);
      assert LooseAfter([], 0) + [Newlines] == [Newlines] by { NoNodes(); }
    } else {
      NodeSound(t);
      var n, rest := ParseNode(t).value, ParseNode(t).rest;
      EatsProper(t, rest, LooseNode(n));
      NodesSound(rest);
      var r := ParseNodes(rest);
      FirstThen(n, r.value);
      var p := LooseAfter(r.value, 0) + [Newlines];
      if r.value == [] {
        NothingMore(rest);
        EatsNewlines(rest);
        EatsThen(t, rest, r.rest, LooseNode(n), [Newlines]);
      } else {
        NextNode(rest);
        if Head(rest) != Enl {
          SkippedAlready(rest);
          NoMerge(t);
        }
        GapSound(rest, n, r.value[0]);
        EatsThen(rest, SkipNewlines(rest), r.rest, Gap(n, r.value[0]), p);
        EatsThen(t, rest, r.rest, LooseNode(n), Gap(n, r.value[0]) + p);
        var g, q := Gap(n, r.value[0]), LooseAfter(r.value, 0);
        assert LooseNode(n) + (g + (q + [Newlines])) == LooseNode(n) + (g + q) + [Newlines];
      }
    }
  }

  lemma NoNodes()
    ensures LooseAfter([], 0) == []
  {
  }

  lemma EatsNoNewline(ts: seq<Token>)
    ensures Eats(ts, ts, [Newlines])
  {
    hide Proper;
    NoNewline();
  }

  lemma NothingMore(ts: seq<Token>)
    requires ParseNodes(ts).Ok? && ParseNodes(ts).value == []
    ensures ParseNodes(ts).rest == SkipNewlines(ts)
  {
    hide ParseNode, SkipNewlines;
  }

  lemma NextNode(ts: seq<Token>)
    requires ParseNodes(ts).Ok? && ParseNodes(ts).value != []
    ensures ParseNode(SkipNewlines(ts)).Ok? && ParseNodes(ts).value[0] == ParseNode(SkipNewlines(ts)).value
  {
    hide ParseNode, SkipNewlines;
  }

  /** A source file that is accepted is a way to write the statements returned. */
  lemma RootSound(ts: seq<Token>)
    requires Proper(ts) && ParseRoot(ts).Ok?
    ensures WellShapedBlock(ParseRoot(ts).value) && Matches(ts, LooseFile(ParseRoot(ts).value.nodes))
  {
    hide Proper, ParseNodes, LooseAfter, Matches, WellShapedBlock;
    NodesSound(ts);
    var r := ParseNodes(ts);
    SkippedAlready(r.rest);
    EatsAfterNewlines(ts, [], LooseAfter(r.value, 0) + [Newlines]);
    assert ts[..|ts|] == ts;
  }

  /** The parser decides the grammar of files: a proper token list is read as `b` exactly
      when `b` is well shaped and the list is a way to write it. */
  lemma ExactlyTheFiles(ts: seq<Token>, b: Block)
    requires Proper(ts)
    ensures ParseRoot(ts) == Ok(b, []) <==> WellShapedBlock(b) && Matches(ts, LooseFile(b.nodes))
  {
    hide Proper, ParseRoot, LooseFile, Matches, WellShapedBlock;
    if ParseRoot(ts) == Ok(b, []) {
      RootSound(ts);
    }
    if WellShapedBlock(b) && Matches(ts, LooseFile(b.nodes)) {
      SPP.RootAccepts(ts, b);
    }
  }

  /** So printing what was read and reading it again gives the same file. */
  lemma ReadAgain(ts: seq<Token>)
    requires Proper(ts) && ParseRoot(ts).Ok?
    ensures var b := ParseRoot(ts).value; ParseRoot(YieldNodes(b.nodes, 0)) == Ok(b, [])
  {
    hide Proper, ParseRoot, LooseFile, Matches, WellShapedBlock;
    RootSound(ts);
    SPP.RootComplete(ParseRoot(ts).value);
  }

  /** No list of tokens is a way to write two files. */
  lemma OneFile(ts: seq<Token>, a: Block, b: Block)
    requires WellShapedBlock(a) && WellShapedBlock(b)
    requires Matches(ts, LooseFile(a.nodes)) && Matches(ts, LooseFile(b.nodes))
    ensures a == b
  {
    hide ParseRoot, LooseFile, Matches, WellShapedBlock;
    SPP.RootAccepts(ts, a);
    SPP.RootAccepts(ts, b);
  }
}
