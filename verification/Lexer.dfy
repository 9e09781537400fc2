/** Scanning one token. The C++ scanners look at the characters between two iterators;
    here they look at that stretch as a string. */
module Lexer {
  import opened Wrappers
  import opened Words
  import opened Tokens

  datatype Lexeme = Lexeme(tok: Token, len: nat)

  /** The tokens that are their own text, in the order they are tried. */
  const FIXED_TOKENS: nat := 34

  function FixedAt(i: nat): (Kind, string) {
    match i
    case 0 => (Dot, ".")
    case 1 => (At, "@")
    case 2 => (Mygo, "mygo")
    case 3 => (Go, "go")
    case 4 => (Walrus, ":=")
    case 5 => (And, "&&")
    case 6 => (Not, "!")
    case 7 => (Or, "||")
    case 8 => (True, "true")
    case 9 => (False, "flase")
    case 10 => (Var, "var")
    case 11 => (Const, "const")
    case 12 => (Struct, "struct")
    case 13 => (For, "for")
    case 14 => (If, "if")
    case 15 => (Else, "else")
    case 16 => (Typedef, "type")
    case 17 => (Equal, "==")
    case 18 => (Less, "<")
    case 19 => (Greater, ">")
    case 20 => (Assign, "=")
    case 21 => (Plus, "+")
    case 22 => (Kind.Sub, "-")
    case 23 => (Star, "*")
    case 24 => (Slash, "/")
    case 25 => (Func, "func")
    case 26 => (Return, "return")
    case 27 => (LBrace, "{")
    case 28 => (RBrace, "}")
    case 29 => (LParent, "(")
    case 30 => (RParent, ")")
    case 31 => (Comma, ",")
    case 32 => (Colon, ":")
    case _ => (Semicolon, ";")
  }

  predicate IsDigit(c: char) {
    '0' <= c <= '9'
  }

  predicate IsSymbolHead(c: char) {
    'a' <= c <= 'z' || 'A' <= c <= 'Z' || c == '_'
  }

  predicate IsSymbolChar(c: char) {
    IsSymbolHead(c) || IsDigit(c)
  }

  predicate IsSpace(c: char) {
    c == ' ' || c == '\t'
  }

  predicate NotQuote(c: char) {
    c != '\"'
  }

  /** How many characters of the class the string starts with. */
  function Span(cs: string, p: char -> bool): (n: nat)
    ensures n <= |cs|
    ensures forall k :: 0 <= k < n ==> p(cs[k])
    ensures n < |cs| ==> !p(cs[n])
  {
    if cs != "" && p(cs[0]) then 1 + Span(cs[1..], p) else 0
  }

  /** The number a digit string writes. */
  function IntValue(digits: string): nat
    requires forall k :: 0 <= k < |digits| ==> IsDigit(digits[k])
  {
    if digits == "" then 0 else
      var last := digits[|digits| - 1];
      assert IsDigit(last);
      IntValue(digits[..|digits| - 1]) * 10 + (last as int - '0' as int)
  }

  /** A number past INT_MAX overflows an `int` in C++: no defined token. */
  function IntFromChars(cs: string): (r: Option<Lexeme>)
    ensures r.Some? ==> 1 <= r.value.len <= |cs|
  {
    var n := Span(cs, IsDigit);
    if n == 0 || IntValue(cs[..n]) > I32_MAX then None else Some(Lexeme(IntToken(IntValue(cs[..n])), n))
  }

  /** Digits, a point, digits; the token keeps the characters. */
  function FloatFromChars(cs: string): (r: Option<Lexeme>)
    ensures r.Some? ==> 1 <= r.value.len <= |cs|
  {
    var whole :- IntFromChars(cs);
    if whole.len == |cs| || cs[whole.len] != '.' then None else
      var part :- IntFromChars(cs[whole.len + 1..]);
      var n := whole.len + part.len + 1;
      Some(Lexeme(FloatToken(cs[..n]), n))
  }

  function StrFromChars(cs: string): (r: Option<Lexeme>)
    requires cs != ""
    ensures r.Some? ==> 1 <= r.value.len <= |cs|
  {
    if cs[0] != '\"' then None else
      var n := Span(cs[1..], NotQuote);
      if n + 1 == |cs| then None else Some(Lexeme(StrToken(cs[1..n + 1]), n + 2))
  }

  /** A symbol that runs to the very end of the input is not recognised. */
  function SymbolFromChars(cs: string): (r: Option<Lexeme>)
    requires cs != ""
    ensures r.Some? ==> 1 <= r.value.len <= |cs|
  {
    if !IsSymbolHead(cs[0]) then None else
      var n := 1 + Span(cs[1..], IsSymbolChar);
      if n == |cs| then None else Some(Lexeme(SymToken(cs[..n]), n))
  }

  function EndlFromChars(cs: string): (r: Option<Lexeme>)
    requires cs != ""
    ensures r.Some? ==> 1 <= r.value.len <= |cs|
  {
    if |cs| > 1 && cs[0] == '\r' && cs[1] == '\n' then Some(Lexeme(Plain(Enl), 2))
    else if cs[0] == '\r' || cs[0] == '\n' then Some(Lexeme(Plain(Enl), 1))
    else None
  }

  predicate StartsWith(cs: string, text: string) {
    |text| <= |cs| && cs[..|text|] == text
  }

  lemma Differs(cs: string, text: string, i: nat)
    requires i < |text| && (i >= |cs| || cs[i] != text[i])
    ensures !StartsWith(cs, text)
  {
    assert |text| <= |cs| ==> cs[..|text|][i] == cs[i];
  }

  /** The first fixed token, from the `i`-th on, that the string starts with. */
  function FixedFromChars(cs: string, i: nat): Option<Lexeme>
    decreases FIXED_TOKENS - i
  {
    if i >= FIXED_TOKENS then None
    else if StartsWith(cs, FixedAt(i).1) then Some(Lexeme(Plain(FixedAt(i).0), |FixedAt(i).1|))
    else FixedFromChars(cs, i + 1)
  }

  lemma FixedStep(cs: string, i: nat)
    requires i < FIXED_TOKENS
    ensures FixedFromChars(cs, i) ==
            if StartsWith(cs, FixedAt(i).1) then Some(Lexeme(Plain(FixedAt(i).0), |FixedAt(i).1|))
            else FixedFromChars(cs, i + 1)
  {
    hide FixedAt, StartsWith;
  }

  lemma NoFixedLeft(cs: string)
    ensures FixedFromChars(cs, FIXED_TOKENS) == None
  {
  }

  /** The token at the start of the string. */
  function FromChars(cs: string): Option<Lexeme> {
    if cs == "" then Some(Lexeme(Plain(Enf), 0))
    else if EndlFromChars(cs).Some? then EndlFromChars(cs)
    else if IsSpace(cs[0]) then Some(Lexeme(Plain(Space), Span(cs, IsSpace)))
    else if FixedFromChars(cs, 0).Some? then FixedFromChars(cs, 0)
    else if FloatFromChars(cs).Some? then FloatFromChars(cs)
    else if IntFromChars(cs).Some? then IntFromChars(cs)
    else if StrFromChars(cs).Some? then StrFromChars(cs)
    else SymbolFromChars(cs)
  }

  /** What the table's entries look like. */
  lemma FixedEntry(k: nat)
    requires k < FIXED_TOKENS
    ensures var (kind, text) := FixedAt(k);
            && text != "" && kind !in {Space, Int, Float, Str, Symbol, Enl, Enf}
            && !IsDigit(text[0]) && !IsSpace(text[0]) && text[0] !in {'\r', '\n', '\"'}
            && (forall m :: 0 <= m < |text| ==> text[m] != ' ')
  {
  }

  lemma {:induction false} FixedFound(cs: string, i: nat)
    ensures var r := FixedFromChars(cs, i);
            r.Some? ==> exists k ::
              && i <= k < FIXED_TOKENS && StartsWith(cs, FixedAt(k).1)
              && (forall j :: i <= j < k ==> !StartsWith(cs, FixedAt(j).1))
              && r.value == Lexeme(Plain(FixedAt(k).0), |FixedAt(k).1|)
    decreases FIXED_TOKENS - i
  {
    hide FixedAt;
    if i < FIXED_TOKENS && !StartsWith(cs, FixedAt(i).1) {
      FixedFound(cs, i + 1);
    }
  }

  /** A token other than the end marker covers at least one character, none past the end;
      the end marker stands exactly at the end, and a space token exactly at a space. */
  lemma TokenExtent(cs: string)
    requires FromChars(cs).Some?
    ensures var l := FromChars(cs).value;
            && (cs == "" <==> l.tok.Kind() == Enf)
            && (if cs == "" then l.len == 0 else 1 <= l.len <= |cs|)
            && (l.tok.Kind() == Space <==> cs != "" && IsSpace(cs[0]))
  {
    hide FixedAt, FixedFromChars;
    FixedFound(cs, 0);
    forall k | 0 <= k < FIXED_TOKENS
      ensures FixedAt(k).1 != "" && FixedAt(k).0 !in {Space, Enf}
    {
      FixedEntry(k);
    }
  }
}
