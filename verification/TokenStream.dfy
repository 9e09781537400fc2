/** The token stream: a position in the source, its line and column, and a one-entry
    cache of the last scanned token. */
module TokenStream {
  import opened Wrappers
  import opened Words
  import opened Tokens
  import opened Lexer
  import opened LexerProofs
  import Scanner

  datatype Loc = Loc(line: nat, column: nat)

  const START: Loc := Loc(1, 1)

  /** A token with its length and the locations it starts and ends at. */
  datatype Located = Located(tok: Token, len: nat, start: Loc, end: Loc)

  /** What a guard saves and reloads. */
  datatype State = State(pos: nat, loc: Loc, last: Located)

  const INITIAL: State := State(0, START, Located(Plain(Enf), 0, START, START))

  function EndLoc(loc: Loc, l: Lexeme): Loc {
    if l.tok.Kind() == Enl then Loc(loc.line + 1, 1) else loc.(column := loc.column + l.len)
  }

  /** `pos` is where some token starts, counting tokens from the start of `src[from..]`. */
  predicate Boundary(src: string, from: nat, pos: nat)
    requires from <= pos <= |src|
    decreases pos - from
  {
    from == pos ||
    (FromChars(src[from..]).Some? &&
     var n := FromChars(src[from..]).value.len;
     0 < n <= pos - from && Boundary(src, from + n, pos))
  }

  /** The location of a boundary: the tokens before it replayed from `from` at `loc`. */
  function LocAt(src: string, from: nat, loc: Loc, pos: nat): Loc
    requires from <= pos <= |src| && Boundary(src, from, pos)
    decreases pos - from
  {
    if from == pos then loc else
      var l := FromChars(src[from..]).value;
      LocAt(src, from + l.len, EndLoc(loc, l), pos)
  }

  /** A state of a stream over `src`: at a token boundary from which the source lexes, with
      the location that replaying the tokens gives. */
  ghost predicate Coherent(src: string, s: State) {
    && s.pos <= |src| && Boundary(src, 0, s.pos) && Lexable(src[s.pos..])
    && s.loc == LocAt(src, 0, START, s.pos)
  }

  /** The tokens still to be read in a state. */
  ghost function RestOf(src: string, s: State): seq<Token>
    requires Coherent(src, s)
  {
    Toks(src[s.pos..])
  }

  /** Boundaries of boundaries are boundaries, and locations add up. */
  lemma {:induction false} BoundaryThen(src: string, from: nat, loc: Loc, mid: nat, pos: nat)
    requires from <= mid <= pos <= |src| && Boundary(src, from, mid) && Boundary(src, mid, pos)
    ensures Boundary(src, from, pos)
    ensures LocAt(src, from, loc, pos) == LocAt(src, mid, LocAt(src, from, loc, mid), pos)
    decreases mid - from
  {
    hide FromChars;
    if from < mid {
      var m := FromChars(src[from..]).value;
      BoundaryThen(src, from + m.len, EndLoc(loc, m), mid, pos);
    }
  }

  /** Where the newline tokens of `src[from..pos]` end. */
  ghost function NewlineEnds(src: string, from: nat, pos: nat): (ends: seq<nat>)
    requires from <= pos <= |src| && Boundary(src, from, pos)
    ensures forall k :: 0 <= k < |ends| ==> from < ends[k] <= pos
    decreases pos - from
  {
    if from == pos then [] else
      var l := FromChars(src[from..]).value;
      (if l.tok == Plain(Enl) then [from + l.len] else []) + NewlineEnds(src, from + l.len, pos)
  }

  lemma {:induction false} ReplayCounts(src: string, from: nat, loc: Loc, pos: nat)
    requires from <= pos <= |src| && Boundary(src, from, pos)
    ensures var ends := NewlineEnds(src, from, pos);
            LocAt(src, from, loc, pos) ==
            if ends == [] then Loc(loc.line, loc.column + (pos - from))
            else Loc(loc.line + |ends|, 1 + pos - ends[|ends| - 1])
    decreases pos - from
  {
    hide FromChars;
    if from < pos {
      var l := FromChars(src[from..]).value;
      ReplayCounts(src, from + l.len, EndLoc(loc, l), pos);
    }
  }

  /** The location of a state, by counting: its line is one more than the newlines before it,
      its column one more than the characters since the last of them, or since the start. */
  lemma LocationCounts(src: string, s: State)
    requires Coherent(src, s)
    ensures var ends := NewlineEnds(src, 0, s.pos);
            && s.loc.line == 1 + |ends|
            && s.loc.column == 1 + s.pos - (if ends == [] then 0 else ends[|ends| - 1])
  {
    ReplayCounts(src, 0, START, s.pos);
  }

  /** The location and position after the token at a state. */
  function After(src: string, s: State): State
    requires s.pos <= |src| && FromChars(src[s.pos..]).Some?
  {
    var l := FromChars(src[s.pos..]).value;
    s.(pos := s.pos + l.len, loc := EndLoc(s.loc, l))
  }

  lemma AfterCoherent(src: string, s: State)
    requires Coherent(src, s)
    ensures FromChars(src[s.pos..]).Some?
    ensures Coherent(src, After(src, s))
    ensures src[After(src, s).pos..] == src[s.pos..][FromChars(src[s.pos..]).value.len..]
  {
    hide FromChars;
    LexableHere(src[s.pos..]);
    TokenExtent(src[s.pos..]);
    if s.pos < |src| {
      var l := FromChars(src[s.pos..]).value;
      assert Boundary(src, s.pos + l.len, s.pos + l.len) && Boundary(src, s.pos, s.pos + l.len);
      BoundaryThen(src, 0, START, s.pos, s.pos + l.len);
    }
  }

  lemma LexableHere(cs: string)
    requires Lexable(cs)
    ensures FromChars(cs).Some? && FromChars(cs).value.len <= |cs|
    ensures Lexable(cs[FromChars(cs).value.len..])
    ensures cs == "" ==> FromChars(cs).value == Lexeme(Plain(Enf), 0)
    ensures cs != "" ==> FromChars(cs).value.len > 0
  {
    hide FixedFromChars, FloatFromChars, IntFromChars, StrFromChars, SymbolFromChars;
    TokenExtent(cs);
  }

  lemma HeadOfRest(cs: string)
    requires Lexable(cs)
    ensures FromChars(cs).Some?
    ensures var t := FromChars(cs).value.tok;
            if Toks(cs) == [] then t == Plain(Enf) else t == Toks(cs)[0] && t.Kind() != Enf
  {
    hide FromChars;
    LexableHere(cs);
    TokenExtent(cs);
  }

  /** Where `Next` stops: behind the current token and the spaces after it. */
  ghost function Skipped(cs: string): string
    requires Lexable(cs)
  {
    LexableHere(cs);
    if cs == "" then "" else SkipSpaces(cs[FromChars(cs).value.len..])
  }

  lemma SkippedIs(cs: string)
    requires Lexable(cs) && cs != ""
    ensures FromChars(cs).value.tok.Kind() == Space ==> Skipped(cs) == SkipSpaces(cs)
    ensures FromChars(cs).value.tok.Kind() != Space ==> cs == SkipSpaces(cs)
    ensures Toks(cs) == [FromChars(cs).value.tok] + Toks(Skipped(cs))
  {
    hide FromChars;
    LexableHere(cs);
  }

  class TokenStream {
    const src: string
    var cache: Option<Located>
    var cacheKey: int
    var state: State

    /** The state is coherent, and the cache holds the located token at its key. */
    ghost predicate Valid()
      reads this
    {
      && Coherent(src, state)
      && (cacheKey != -1 ==>
            && 0 <= cacheKey <= |src| && Boundary(src, 0, cacheKey) && FromChars(src[cacheKey..]).Some?
            && var l, start := FromChars(src[cacheKey..]).value, LocAt(src, 0, START, cacheKey);
               cache == Some(Located(l.tok, l.len, start, EndLoc(start, l))))
    }

    /** The tokens still to be read. */
    ghost function Rest(): seq<Token>
      requires Valid()
      reads this
    {
      RestOf(src, state)
    }

    /** The current token as it is stored once its location is known. */
    ghost function Current(): Located
      requires Valid()
      reads this
    {
      LexableHere(src[state.pos..]);
      var l := FromChars(src[state.pos..]).value;
      Located(l.tok, l.len, state.loc, EndLoc(state.loc, l))
    }

    constructor (src: string)
      requires Lexable(src)
      ensures Valid() && this.src == src && state == INITIAL && Rest() == Toks(src)
    {
      this.src := src;
      cache, cacheKey, state := None, -1, INITIAL;
      new;
      assert src[0..] == src;
    }

    /** The current token. A token scanned by this very call comes back without its
        location, a cached one with it; the cache has the location either way. */
    method Peek() returns (v: Located)
      requires Valid()
      modifies this`cache, this`cacheKey
      ensures Valid() && cacheKey == state.pos && cache == Some(Current())
      ensures v.tok == Current().tok && v.len == Current().len
      ensures v == if old(cacheKey) == state.pos then Current() else Current().(start := START, end := START)
      ensures Rest() == old(Rest())
      ensures if Rest() == [] then v.tok == Plain(Enf) else v.tok == Rest()[0] && v.tok.Kind() != Enf
    {
      hide FromChars, Lexable, SkipSpaces, Boundary, LocAt;
      HeadOfRest(src[state.pos..]);
      assert FromChars(src[state.pos..]).Some? by { LexableHere(src[state.pos..]); }
      if cacheKey == state.pos {
        return cache.value;
      }
      var l := Scanner.FromChars(src, state.pos);
      cacheKey := state.pos;
      cache := Some(Located(l.value.tok, l.value.len, state.loc, EndLoc(state.loc, l.value)));
      v := Located(l.value.tok, l.value.len, START, START);
    }

    /** Skips the current token and the spaces after it. */
    method Next()
      requires Valid()
      modifies this
      ensures Valid()
      ensures state.last == old(Current())
      ensures Rest() == if old(Rest()) == [] then [] else old(Rest())[1..]
    {
      hide FromChars, Lexable, SkipSpaces, Boundary, LocAt, Skipped, Toks;
      ghost var here := src[state.pos..];
      ghost var target := Skipped(here);
      var v := Peek();
      v := Peek();
      state := state.(last := v);
      while true
        invariant Valid() && state.last == old(Current())
        invariant cacheKey == state.pos && cache == Some(Current())
        invariant Lexable(src[state.pos..]) && Skipped(src[state.pos..]) == target
        decreases |src| - state.pos
      {
        StepOver();
        v := Peek();
        if v.tok.Kind() == Space { continue; }
        break;
      }
      RestAfter(here, target);
    }

    /** The position and location behind the current token; its successor is then cached. */
    method StepOver()
      requires Valid() && cacheKey == state.pos && cache == Some(Current())
      modifies this
      ensures Valid() && state.last == old(state.last) && cacheKey == state.pos && cache == Some(Current())
      ensures Lexable(old(src[state.pos..])) && Lexable(src[state.pos..])
      ensures Current().tok.Kind() == Space ==>
                Skipped(src[state.pos..]) == Skipped(old(src[state.pos..])) && old(state.pos) < state.pos
      ensures Current().tok.Kind() != Space ==> src[state.pos..] == Skipped(old(src[state.pos..]))
    {
      hide FromChars, Lexable, SkipSpaces, Boundary, LocAt, Skipped, Toks;
      ghost var cs := src[state.pos..];
      AfterCoherent(src, state);
      LexableHere(cs);
      var v := Peek();
      state := state.(loc := v.end, pos := state.pos + v.len);
      SkippedFrom(cs, src[state.pos..]);
      v := Peek();
    }

    /** What a guard keeps, to go back to later. */
    method Save() returns (s: State)
      requires Valid()
      ensures s == state && Coherent(src, s) && RestOf(src, s) == Rest()
    {
      s := state;
    }

    /** Goes back to a state saved earlier. */
    method Load(s: State)
      requires Valid() && Coherent(src, s)
      modifies this`state
      ensures Valid() && state == s && Rest() == RestOf(src, s)
    {
      state := s;
    }
  }

  /** One round of the loop of `Next`: from `cs` to `next`. */
  lemma SkippedFrom(cs: string, next: string)
    requires Lexable(cs) && FromChars(cs).Some? && FromChars(cs).value.len <= |cs| && Lexable(next)
    requires next == cs[FromChars(cs).value.len..]
    ensures FromChars(next).Some?
    ensures FromChars(next).value.tok.Kind() == Space ==> Skipped(next) == Skipped(cs) && |next| < |cs|
    ensures FromChars(next).value.tok.Kind() != Space ==> next == Skipped(cs)
  {
    hide FromChars;
    LexableHere(cs);
    LexableHere(next);
    if next == "" {
      assert SkipSpaces(next) == next;
    } else {
      SkippedIs(next);
    }
  }

  lemma RestAfter(cs: string, target: string)
    requires Lexable(cs) && target == Skipped(cs) && Lexable(target)
    ensures Toks(target) == if Toks(cs) == [] then [] else Toks(cs)[1..]
  {
    hide FromChars;
    if cs != "" {
      SkippedIs(cs);
    }
  }
}
