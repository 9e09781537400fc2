/** The expression parser as it runs: every parse method moves the shared stream, and on
    an error puts its state back. Each is tied to the function on the stream's remaining
    tokens. */
module ExprParsing {
  import opened Wrappers
  import opened Tokens
  import opened Ast
  import opened TokenStream
  import G = Grammar
  import P = ExprParser

  datatype Result<+T> = Good(value: T) | Bad(fatal: bool)

  /** The method did what the function says: on success the stream stands before the
      function's rest; on an error its state is the one it had. */
  ghost predicate Did<T>(stream: TokenStream, was: State, ts: seq<Token>, p: P.Parsed<T>, r: Result<T>)
    reads stream
  {
    && stream.Valid()
    && match p
       case Ok(v, rest) => r == Good(v) && stream.Rest() == rest
       case Err(fatal) => r == Bad(fatal) && stream.state == was && stream.Rest() == ts
  }

  method PeekKind(stream: TokenStream) returns (k: Kind)
    requires stream.Valid()
    modifies stream`cache, stream`cacheKey
    ensures stream.Valid() && stream.Rest() == old(stream.Rest()) && k == P.Head(stream.Rest())
  {
    var v := stream.Peek();
    k := v.tok.Kind();
  }

  method ParseToken(stream: TokenStream) returns (r: Result<Expr>)
    requires stream.Valid()
    modifies stream
    ensures Did(stream, old(stream.state), old(stream.Rest()), P.ParseToken(old(stream.Rest())), r)
  {
    hide stream.Valid, stream.Rest, Coherent;
    var saved := stream.Save();
    var v := stream.Peek();
    if G.LiteralKind(v.tok.Kind()) {
      stream.Next();
      return Good(Atom(v.tok));
    }
    stream.Load(saved);
    r := Bad(false);
  }

  method ParseFuncall(stream: TokenStream) returns (r: Result<Expr>)
    requires stream.Valid()
    modifies stream
    ensures Did(stream, old(stream.state), old(stream.Rest()), P.ParseFuncall(old(stream.Rest())), r)
    decreases |stream.Rest()|, 0
  {
    hide P.Parse, P.ParseArgs, stream.Valid, stream.Rest, Coherent;
    var saved := stream.Save();
    var f := ParseToken(stream);
    if f.Bad? {
      stream.Load(saved);
      return Bad(false);
    }
    var k := PeekKind(stream);
    if k != LParent {
      stream.Load(saved);
      return Bad(false);
    }
    stream.Next();
    var args := ParseArgs(stream);
    k := PeekKind(stream);
    if k != RParent {
      stream.Load(saved);
      return Bad(false);
    }
    stream.Next();
    r := Good(Funcall([f.value] + args));
  }

  method ParseArgs(stream: TokenStream) returns (exprs: seq<Expr>)
    requires stream.Valid()
    modifies stream
    ensures stream.Valid() && (exprs, stream.Rest()) == P.ParseArgs(old(stream.Rest()))
    decreases |stream.Rest()|, 7
  {
    hide P.Parse, P.ParseArgs, stream.Valid, stream.Rest, Coherent;
    exprs := [];
    ghost var all := P.ParseArgs(stream.Rest());
    while true
      invariant stream.Valid() && |stream.Rest()| <= |old(stream.Rest())|
      invariant var more := P.ParseArgs(stream.Rest()); exprs + more.0 == all.0 && more.1 == all.1
      decreases |stream.Rest()|
    {
      ghost var more := P.ParseArgs(stream.Rest()).0;
      ArgsHere(stream.Rest());
      var e := ParseExpr(stream);
      if e.Bad? {
        assert exprs + [] == exprs;
        break;
      }
      assert more != [] && exprs + more == exprs + [e.value] + more[1..];
      exprs := exprs + [e.value];
      var k := PeekKind(stream);
      if k != Comma { break; }
      stream.Next();
    }
  }

  lemma ArgsHere(ts: seq<Token>)
    ensures match P.ParseExpr(ts)
            case Err(_) => P.ParseArgs(ts) == ([], ts)
            case Ok(e, rest) =>
              P.ParseArgs(ts) ==
              if P.Head(rest) != Comma then ([e], rest)
              else ([e] + P.ParseArgs(P.Advance(rest)).0, P.ParseArgs(P.Advance(rest)).1)
  {
    hide P.Parse;
  }

  method ParseAtomic(stream: TokenStream) returns (r: Result<Expr>)
    requires stream.Valid()
    modifies stream
    ensures Did(stream, old(stream.state), old(stream.Rest()), P.ParseAtomic(old(stream.Rest())), r)
    decreases |stream.Rest()|, 1
  {
    hide P.ParseFuncall, stream.Valid, stream.Rest, Coherent;
    var saved := stream.Save();
    var fc := ParseFuncall(stream);
    if fc.Good? { return fc; }
    var subPrefix := false;
    var k := PeekKind(stream);
    if k == Sub {
      subPrefix := true;
      stream.Next();
    }
    var e := ParseToken(stream);
    if e.Bad? {
      stream.Load(saved);
      return Bad(false);
    }
    r := if subPrefix then Good(Ops([Kind.Sub], [e.value])) else e;
  }

  /** The levels of the precedence chain. */
  method Parse(stream: TokenStream, level: nat) returns (r: Result<Expr>)
    requires stream.Valid() && level <= 3
    modifies stream
    ensures Did(stream, old(stream.state), old(stream.Rest()), P.Parse(old(stream.Rest()), level), r)
    decreases |stream.Rest()|, level + 2
  {
    hide P.ParseAtomic, P.ParseRest, stream.Valid, stream.Rest, Coherent;
    if level == 0 {
      r := ParseAtomic(stream);
      return;
    }
    var saved := stream.Save();
    var expr0 := Parse(stream, level - 1);
    if expr0.Bad? {
      stream.Load(saved);
      return Bad(false);
    }
    var t := PeekKind(stream);
    if t !in G.OpsAt(level) { return expr0; }
    if level == 3 {
      stream.Next();
      var expr1 := Parse(stream, 2);
      if expr1.Bad? {
        stream.Load(saved);
        return Bad(false);
      }
      return Good(Ops([t], [expr0.value, expr1.value]));
    }
    var rest := ParseRest(stream, level);
    if rest.Bad? {
      stream.Load(saved);
      return Bad(false);
    }
    r := Good(Ops(rest.value.0, [expr0.value] + rest.value.1));
  }

  /** What a loop that has collected `ops` and `exprs` still has to do. */
  ghost predicate Collects(all: P.Parsed<(seq<Kind>, seq<Expr>)>, ops: seq<Kind>, exprs: seq<Expr>,
                           more: P.Parsed<(seq<Kind>, seq<Expr>)>) {
    match more
    case Ok((o, e), rest) => all == P.Ok((ops + o, exprs + e), rest)
    case Err(fatal) => all == P.Err(fatal)
  }

  method ParseRest(stream: TokenStream, level: nat) returns (r: Result<(seq<Kind>, seq<Expr>)>)
    requires stream.Valid() && 1 <= level <= 2 && P.Head(stream.Rest()) in G.OpsAt(level)
    modifies stream
    ensures Did(stream, old(stream.state), old(stream.Rest()), P.ParseRest(old(stream.Rest()), level), r)
    decreases |stream.Rest()|, 0
  {
    hide P.Parse, P.ParseRest, G.OpsAt, stream.Valid, stream.Rest, Coherent, Collects;
    var saved := stream.Save();
    var ops: seq<Kind>, exprs: seq<Expr> := [], [];
    ghost var all := P.ParseRest(stream.Rest(), level);
    assert Collects(all, ops, exprs, all) by { CollectsAll(all); }
    while true
      invariant stream.Valid() && |stream.Rest()| <= |old(stream.Rest())|
      invariant Collects(all, ops, exprs, P.ParseRest(stream.Rest(), level))
      decreases |stream.Rest()|
    {
      var t := PeekKind(stream);
      ghost var here := stream.Rest();
      RestHere(here, level);
      if t !in G.OpsAt(level) { break; }
      stream.Next();
      var e := Parse(stream, level - 1);
      if e.Bad? {
        CollectsError(all, ops, exprs, here, level);
        stream.Load(saved);
        return Bad(false);
      }
      CollectsNext(all, ops, exprs, here, level);
      ops, exprs := ops + [t], exprs + [e.value];
    }
    assert Collects(all, ops, exprs, P.Ok(([], []), stream.Rest()));
    CollectsDone(all, ops, exprs, stream.Rest());
    r := Good((ops, exprs));
  }

  lemma CollectsAll(all: P.Parsed<(seq<Kind>, seq<Expr>)>)
    ensures Collects(all, [], [], all)
  {
    if all.Ok? {
      assert [] + all.value.0 == all.value.0 && [] + all.value.1 == all.value.1;
    }
  }

  lemma RestHere(ts: seq<Token>, level: nat)
    requires 1 <= level <= 2
    ensures P.Head(ts) in G.OpsAt(level) ==> ts != [] && P.Advance(ts) == ts[1..]
    ensures P.Head(ts) !in G.OpsAt(level) ==> P.ParseRest(ts, level) == P.Ok(([], []), ts)
  {
  }

  lemma CollectsDone(all: P.Parsed<(seq<Kind>, seq<Expr>)>, ops: seq<Kind>, exprs: seq<Expr>, rest: seq<Token>)
    requires Collects(all, ops, exprs, P.Ok(([], []), rest))
    ensures all == P.Ok((ops, exprs), rest)
  {
    assert ops + [] == ops && exprs + [] == exprs;
  }

  lemma CollectsError(
      all: P.Parsed<(seq<Kind>, seq<Expr>)>, ops: seq<Kind>, exprs: seq<Expr>, ts: seq<Token>, level: nat)
    requires 1 <= level <= 2 && P.Head(ts) in G.OpsAt(level) && Collects(all, ops, exprs, P.ParseRest(ts, level))
    requires P.Parse(P.Advance(ts), level - 1).Err?
    ensures all == P.Err(false)
  {
    hide P.Parse, G.OpsAt;
  }

  lemma CollectsNext(
      all: P.Parsed<(seq<Kind>, seq<Expr>)>, ops: seq<Kind>, exprs: seq<Expr>, ts: seq<Token>, level: nat)
    requires 1 <= level <= 2 && P.Head(ts) in G.OpsAt(level) && Collects(all, ops, exprs, P.ParseRest(ts, level))
    requires P.Parse(P.Advance(ts), level - 1).Ok?
    ensures var e := P.Parse(P.Advance(ts), level - 1);
            Collects(all, ops + [P.Head(ts)], exprs + [e.value], P.ParseRest(e.rest, level))
  {
    hide P.Parse, G.OpsAt;
    var e := P.Parse(P.Advance(ts), level - 1);
    if P.ParseRest(e.rest, level).Ok? {
      var more := P.ParseRest(e.rest, level).value;
      assert ops + ([P.Head(ts)] + more.0) == ops + [P.Head(ts)] + more.0;
      assert exprs + ([e.value] + more.1) == exprs + [e.value] + more.1;
    }
  }

  method ParseExpr(stream: TokenStream) returns (r: Result<Expr>)
    requires stream.Valid()
    modifies stream
    ensures Did(stream, old(stream.state), old(stream.Rest()), P.ParseExpr(old(stream.Rest())), r)
    decreases |stream.Rest()|, 6
  {
    hide P.Parse, stream.Valid, stream.Rest, Coherent;
    r := Parse(stream, 3);
  }
}
