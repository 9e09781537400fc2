/** The scanners as they run: loops over local cursors. */
module Scanner {
  import opened Wrappers
  import opened Words
  import opened Tokens
  import L = Lexer

  method ScanSpan(cs: string, from: nat, p: char -> bool) returns (cur: nat)
    requires from <= |cs|
    ensures cur == from + L.Span(cs[from..], p)
  {
    cur := from;
    while cur < |cs| && p(cs[cur])
      invariant from <= cur <= |cs|
      invariant L.Span(cs[from..], p) == cur - from + L.Span(cs[cur..], p)
    {
      cur := cur + 1;
    }
  }

  /** Accumulates the value digit by digit. A sum past INT_MAX has no defined value. */
  method IntFromChars(cs: string, from: nat) returns (r: Option<L.Lexeme>)
    requires from <= |cs|
    ensures r == L.IntFromChars(cs[from..])
  {
    var len, res := 0, 0;
    ghost var rest := cs[from..];
    ghost var all := L.Span(rest, L.IsDigit);
    while from + len < |cs| && L.IsDigit(cs[from + len])
      invariant len <= all && from + len <= |cs|
      invariant all == len + L.Span(cs[from + len..], L.IsDigit)
      invariant res == L.IntValue(rest[..len])
    {
      res := res * 10 + (cs[from + len] as int - '0' as int);
      assert rest[..len + 1][..len] == rest[..len];
      len := len + 1;
    }
    r := if len == 0 || res > I32_MAX then None else Some(L.Lexeme(IntToken(res), len));
  }

  method FloatFromChars(cs: string, from: nat) returns (r: Option<L.Lexeme>)
    requires from <= |cs|
    ensures r == L.FloatFromChars(cs[from..])
  {
    hide L.IntFromChars;
    var whole := IntFromChars(cs, from);
    if whole.None? { return None; }
    var temp := from + whole.value.len;
    if temp == |cs| { return None; }
    if cs[temp] != '.' { return None; }
    assert cs[temp + 1..] == cs[from..][whole.value.len + 1..];
    var part := IntFromChars(cs, temp + 1);
    if part.None? { return None; }
    var n := whole.value.len + part.value.len + 1;
    r := Some(L.Lexeme(FloatToken(cs[from..from + n]), n));
    assert cs[from..][..n] == cs[from..from + n];
  }

  method StrFromChars(cs: string, from: nat) returns (r: Option<L.Lexeme>)
    requires from < |cs|
    ensures r == L.StrFromChars(cs[from..])
  {
    if cs[from] != '\"' { return None; }
    assert cs[from + 1..] == cs[from..][1..];
    var cur := ScanSpan(cs, from + 1, L.NotQuote);
    if cur == |cs| { return None; }
    assert cs[from + 1..cur] == cs[from..][1..cur - from];
    r := Some(L.Lexeme(StrToken(cs[from + 1..cur]), cur - from + 1));
  }

  method SymbolFromChars(cs: string, from: nat) returns (r: Option<L.Lexeme>)
    requires from < |cs|
    ensures r == L.SymbolFromChars(cs[from..])
  {
    if !L.IsSymbolHead(cs[from]) { return None; }
    assert cs[from + 1..] == cs[from..][1..];
    var cur := ScanSpan(cs, from + 1, L.IsSymbolChar);
    if cur == |cs| { return None; }
    assert cs[from..cur] == cs[from..][..cur - from];
    r := Some(L.Lexeme(SymToken(cs[from..cur]), cur - from));
  }

  method EndlFromChars(cs: string, from: nat) returns (r: Option<L.Lexeme>)
    requires from < |cs|
    ensures r == L.EndlFromChars(cs[from..])
  {
    if from + 1 != |cs| && cs[from] == '\r' && cs[from + 1] == '\n' {
      return Some(L.Lexeme(Plain(Enl), 2));
    }
    if cs[from] == '\r' || cs[from] == '\n' {
      return Some(L.Lexeme(Plain(Enl), 1));
    }
    r := None;
  }

  /** Compares character by character, up to the first difference. */
  method Matches(cs: string, from: nat, text: string) returns (ismatch: bool)
    requires from <= |cs|
    ensures ismatch == L.StartsWith(cs[from..], text)
  {
    for i := 0 to |text|
      invariant from + i <= |cs| && cs[from..from + i] == text[..i]
    {
      if from + i == |cs| || cs[from + i] != text[i] {
        L.Differs(cs[from..], text, i);
        return false;
      }
      assert cs[from..from + i + 1] == cs[from..from + i] + [cs[from + i]];
      assert text[..i + 1] == text[..i] + [text[i]];
    }
    assert cs[from..][..|text|] == cs[from..from + |text|];
    ismatch := true;
  }

  method FixedFromChars(cs: string, from: nat) returns (r: Option<L.Lexeme>)
    requires from <= |cs|
    ensures r == L.FixedFromChars(cs[from..], 0)
  {
    hide L.FixedAt, L.StartsWith, L.FixedFromChars;
    for i := 0 to L.FIXED_TOKENS
      invariant L.FixedFromChars(cs[from..], 0) == L.FixedFromChars(cs[from..], i)
    {
      var (kind, text) := L.FixedAt(i);
      L.FixedStep(cs[from..], i);
      var ismatch := Matches(cs, from, text);
      if ismatch {
        return Some(L.Lexeme(Plain(kind), |text|));
      }
    }
    L.NoFixedLeft(cs[from..]);
    r := None;
  }

  /** Tries the scanners in order. */
  method FromChars(cs: string, from: nat) returns (r: Option<L.Lexeme>)
    requires from <= |cs|
    ensures r == L.FromChars(cs[from..])
  {
    hide L.FixedFromChars, L.FloatFromChars, L.IntFromChars, L.StrFromChars, L.SymbolFromChars;
    if from == |cs| { return Some(L.Lexeme(Plain(Enf), 0)); }
    r := EndlFromChars(cs, from);
    if r.Some? { return; }
    if L.IsSpace(cs[from]) {
      var cur := ScanSpan(cs, from, L.IsSpace);
      return Some(L.Lexeme(Plain(Space), cur - from));
    }
    r := FixedFromChars(cs, from);
    if r.Some? { return; }
    r := FloatFromChars(cs, from);
    if r.Some? { return; }
    r := IntFromChars(cs, from);
    if r.Some? { return; }
    r := StrFromChars(cs, from);
    if r.Some? { return; }
    r := SymbolFromChars(cs, from);
  }
}
