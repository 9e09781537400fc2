/** Lexing a whole source, and that printed tokens lex back to themselves. */
module LexerProofs {
  import opened Wrappers
  import opened Words
  import opened Tokens
  import opened Lexer

  // ----- the token list of a source -----

  /** Every position the stream reaches has a token. */
  predicate Lexable(cs: string)
    decreases |cs|
  {
    cs == "" || (FromChars(cs).Some? && (TokenExtent(cs); Lexable(cs[FromChars(cs).value.len..])))
  }

  function SkipSpaces(cs: string): (r: string)
    requires Lexable(cs)
    ensures Lexable(r) && |r| <= |cs| && (r != "" ==> FromChars(r).value.tok.Kind() != Space)
    decreases |cs|
  {
    TokenExtent(cs);
    if cs != "" && FromChars(cs).value.tok.Kind() == Space then SkipSpaces(cs[FromChars(cs).value.len..]) else cs
  }

  /** The tokens `Next` steps through: the current one, then each after skipping spaces. */
  function Toks(cs: string): seq<Token>
    requires Lexable(cs)
    decreases |cs|
  {
    TokenExtent(cs);
    if cs == "" then [] else
      [FromChars(cs).value.tok] + Toks(SkipSpaces(cs[FromChars(cs).value.len..]))
  }

  // ----- every token is its text -----

  /** The kinds of token that are their own text. */
  predicate Fixed(k: Kind) {
    k !in {Space, Int, Float, Str, Symbol, Enl, Enf}
  }

  /** How they are written. */
  function Spelling(k: Kind): string {
    match k
    case Dot => "."
    case At => "@"
    case Mygo => "mygo"
    case Go => "go"
    case Walrus => ":="
    case And => "&&"
    case Not => "!"
    case Or => "||"
    case True => "true"
    case False => "flase"
    case Var => "var"
    case Const => "const"
    case Struct => "struct"
    case For => "for"
    case If => "if"
    case Else => "else"
    case Typedef => "type"
    case Equal => "=="
    case Less => "<"
    case Greater => ">"
    case Assign => "="
    case Plus => "+"
    case Sub => "-"
    case Star => "*"
    case Slash => "/"
    case Func => "func"
    case Return => "return"
    case LBrace => "{"
    case RBrace => "}"
    case LParent => "("
    case RParent => ")"
    case Comma => ","
    case Colon => ":"
    case Semicolon => ";"
    case _ => ""
  }

  /** The characters a token may stand for. */
  predicate Spells(t: Token, text: string) {
    match t
    case SymToken(s) => text == s && s != "" && IsSymbolHead(s[0]) && (forall k :: 0 <= k < |s| ==> IsSymbolChar(s[k]))
    case StrToken(s) => text == "\"" + s + "\"" && '\"' !in s
    case IntToken(i) => text != "" && (forall k :: 0 <= k < |text| ==> IsDigit(text[k])) && IntValue(text) == i
    case FloatToken(digits) => text == digits && '.' in digits
    case Plain(k) =>
      match k
      case Enf => text == ""
      case Space => text != "" && (forall m :: 0 <= m < |text| ==> IsSpace(text[m]))
      case Enl => text in {"\n", "\r", "\r\n"}
      case _ => text == Spelling(k)
  }

  lemma SymbolIsItsText(cs: string)
    requires cs != "" && SymbolFromChars(cs).Some?
    ensures var l := SymbolFromChars(cs).value; Spells(l.tok, cs[..l.len])
  {
    var l := SymbolFromChars(cs).value;
    forall k | 0 <= k < l.len ensures IsSymbolChar(cs[..l.len][k]) {
      assert k > 0 ==> cs[k] == cs[1..][k - 1];
    }
  }

  lemma StringIsItsText(cs: string)
    requires cs != "" && StrFromChars(cs).Some?
    ensures var l := StrFromChars(cs).value; Spells(l.tok, cs[..l.len])
  {
    var l := StrFromChars(cs).value;
    var n := l.len - 2;
    assert cs[l.len - 1] == cs[1..][n] == '\"';
    assert cs[..l.len] == "\"" + cs[1..n + 1] + "\"";
    assert forall k :: 0 <= k < n ==> cs[1..n + 1][k] == cs[1..][k];
  }

  lemma FixedIsItsText(cs: string)
    requires FixedFromChars(cs, 0).Some?
    ensures var l := FixedFromChars(cs, 0).value; l.len <= |cs| && Spells(l.tok, cs[..l.len])
  {
    hide FixedAt, FixedFromChars, Spelling;
    var l := FixedFromChars(cs, 0).value;
    FixedFound(cs, 0);
    var m :| 0 <= m < FIXED_TOKENS && StartsWith(cs, FixedAt(m).1)
             && l == Lexeme(Plain(FixedAt(m).0), |FixedAt(m).1|);
    TableSpells(m);
  }

  /** The scanner's table has each kind with its spelling. */
  lemma TableSpells(m: nat)
    requires m < FIXED_TOKENS
    ensures Fixed(FixedAt(m).0) && FixedAt(m).1 == Spelling(FixedAt(m).0)
  {
    hide FixedAt, Spelling, KindIndex;
    FixedEntry(m);
    IndexOfKind(m);
    InTable(FixedAt(m).0);
  }

  lemma IndexOfKind(m: nat)
    requires m < FIXED_TOKENS
    ensures KindIndex(FixedAt(m).0) == m
  {
  }

  lemma NumberIsItsText(cs: string)
    ensures IntFromChars(cs).Some? ==> var l := IntFromChars(cs).value; Spells(l.tok, cs[..l.len])
    ensures FloatFromChars(cs).Some? ==> var l := FloatFromChars(cs).value; Spells(l.tok, cs[..l.len])
  {
    if FloatFromChars(cs).Some? {
      var n := IntFromChars(cs).value.len;
      assert cs[..FloatFromChars(cs).value.len][n] == '.';
    }
  }

  /** The scanned token is what its characters write. */
  lemma TokenIsItsText(cs: string)
    requires FromChars(cs).Some? && FromChars(cs).value.len <= |cs|
    ensures Spells(FromChars(cs).value.tok, cs[..FromChars(cs).value.len])
  {
    hide FixedAt, FixedFromChars, IntFromChars, FloatFromChars, StrFromChars, SymbolFromChars;
    if cs == "" {
    } else if EndlFromChars(cs).Some? || IsSpace(cs[0]) {
      assert cs[..1] == [cs[0]] && (|cs| > 1 ==> cs[..2] == [cs[0], cs[1]]);
    } else if FixedFromChars(cs, 0).Some? {
      FixedIsItsText(cs);
    } else {
      NumberIsItsText(cs);
      if StrFromChars(cs).Some? { StringIsItsText(cs); }
      if SymbolFromChars(cs).Some? { SymbolIsItsText(cs); }
    }
  }

  // ----- printing and scanning back -----

  /** A source cut at its tokens, spaces included. */
  ghost function Pieces(cs: string): seq<(Token, string)>
    requires Lexable(cs)
    decreases |cs|
  {
    TokenExtent(cs);
    if cs == "" then [] else
      var l := FromChars(cs).value;
      [(l.tok, cs[..l.len])] + Pieces(cs[l.len..])
  }

  ghost function Texts(pieces: seq<(Token, string)>): string {
    if pieces == [] then "" else pieces[0].1 + Texts(pieces[1..])
  }

  ghost function NoSpaces(pieces: seq<(Token, string)>): seq<Token> {
    if pieces == [] then [] else
      (if pieces[0].0.Kind() == Space then [] else [pieces[0].0]) + NoSpaces(pieces[1..])
  }

  ghost predicate AllSpelled(pieces: seq<(Token, string)>) {
    forall k :: 0 <= k < |pieces| ==> pieces[k].1 != "" && Spells(pieces[k].0, pieces[k].1)
  }

  lemma FirstPiece(cs: string)
    requires Lexable(cs) && cs != ""
    ensures FromChars(cs).Some? && 1 <= FromChars(cs).value.len <= |cs|
    ensures var l := FromChars(cs).value;
            && Lexable(cs[l.len..]) && Pieces(cs) == [(l.tok, cs[..l.len])] + Pieces(cs[l.len..])
            && Toks(SkipSpaces(cs)) ==
               (if l.tok.Kind() == Space then [] else [l.tok]) + Toks(SkipSpaces(cs[l.len..]))
  {
    hide FromChars;
    TokenExtent(cs);
  }

  lemma PieceAdded(piece: (Token, string), more: seq<(Token, string)>)
    ensures Texts([piece] + more) == piece.1 + Texts(more)
    ensures NoSpaces([piece] + more) == (if piece.0.Kind() == Space then [] else [piece.0]) + NoSpaces(more)
    ensures piece.1 != "" && Spells(piece.0, piece.1) && AllSpelled(more) ==> AllSpelled([piece] + more)
  {
    hide Spells;
    assert ([piece] + more)[1..] == more;
  }

  lemma NoPieces()
    ensures Lexable("") && Texts(Pieces("")) == "" && AllSpelled(Pieces(""))
    ensures NoSpaces(Pieces("")) == Toks(SkipSpaces(""))
  {
    hide Spells;
  }

  /** The pieces tile the source: together they are its text, none is empty, each spells its
      token, and past leading spaces the token list is their tokens without spaces. */
  lemma {:induction false} PiecesTile(cs: string)
    requires Lexable(cs)
    ensures Texts(Pieces(cs)) == cs
    ensures AllSpelled(Pieces(cs))
    ensures NoSpaces(Pieces(cs)) == Toks(SkipSpaces(cs))
    decreases |cs|
  {
    hide FromChars, Spells, Lexable, Pieces, Toks, SkipSpaces, Texts, NoSpaces, AllSpelled;
    if cs == "" {
      NoPieces();
    } else {
      FirstPiece(cs);
      var l := FromChars(cs).value;
      TokenIsItsText(cs);
      PiecesTile(cs[l.len..]);
      PieceAdded((l.tok, cs[..l.len]), Pieces(cs[l.len..]));
    }
  }

  function Digits(n: nat): (s: string)
    ensures s != "" && (forall k :: 0 <= k < |s| ==> IsDigit(s[k]))
  {
    if n < 10 then [(n + '0' as int) as char] else Digits(n / 10) + [(n % 10 + '0' as int) as char]
  }

  lemma {:induction false} DigitsValue(n: nat)
    ensures IntValue(Digits(n)) == n
  {
    var s := Digits(n);
    if n < 10 {
      assert s[..|s| - 1] == "";
    } else {
      DigitsValue(n / 10);
      assert s[..|s| - 1] == Digits(n / 10);
    }
  }

  predicate AllDigits(s: string) {
    s != "" && forall k :: 0 <= k < |s| ==> IsDigit(s[k])
  }

  /** Digits, a point, digits, each part no larger than an int. */
  predicate FloatText(s: string) {
    var n := Span(s, IsDigit);
    && 0 < n < |s| && s[n] == '.' && AllDigits(s[n + 1..])
    && IntValue(s[..n]) <= I32_MAX && IntValue(s[n + 1..]) <= I32_MAX
  }

  predicate SymbolShaped(s: string) {
    s != "" && IsSymbolHead(s[0]) && forall k :: 0 <= k < |s| ==> IsSymbolChar(s[k])
  }

  /** No fixed token begins the name. */
  predicate BeginsWithNone(s: string) {
    forall k :: Fixed(k) ==> !StartsWith(s, Spelling(k))
  }

  lemma NoEntryBegins(s: string)
    ensures BeginsWithNone(s) <==> forall i :: 0 <= i < FIXED_TOKENS ==> !StartsWith(s, FixedAt(i).1)
  {
    hide FixedAt, Spelling;
    forall i | 0 <= i < FIXED_TOKENS ensures Fixed(FixedAt(i).0) && FixedAt(i).1 == Spelling(FixedAt(i).0) {
      TableSpells(i);
    }
    forall k | Fixed(k) ensures KindIndex(k) < FIXED_TOKENS && FixedAt(KindIndex(k)).1 == Spelling(k) {
      InTable(k);
    }
  }

  /** Tokens that can be printed: fixed ones and newlines, integers and floats a literal can
      write, strings without a quote, and symbols that no fixed token begins. */
  predicate Printable(t: Token) {
    match t
    case Plain(k) => k !in {Space, Int, Float, Str, Symbol, Enf}
    case IntToken(i) => i >= 0
    case FloatToken(digits) => FloatText(digits)
    case StrToken(s) => '\"' !in s
    case SymToken(s) => SymbolShaped(s) && BeginsWithNone(s)
  }

  function Print(t: Token): string
    requires Printable(t)
  {
    match t
    case Plain(k) => if k == Enl then "\n" else Spelling(k)
    case IntToken(i) => Digits(i)
    case FloatToken(digits) => digits
    case StrToken(s) => "\"" + s + "\""
    case SymToken(s) => s
  }

  /** Each token followed by a space. */
  function PrintAll(ts: seq<Token>): string
    requires forall k :: 0 <= k < |ts| ==> Printable(ts[k])
  {
    if ts == [] then "" else Print(ts[0]) + (" " + PrintAll(ts[1..]))
  }

  lemma {:induction false} SpanConcat(a: string, b: string, p: char -> bool)
    requires (forall k :: 0 <= k < |a| ==> p(a[k])) && (b != "" ==> !p(b[0]))
    ensures Span(a + b, p) == |a|
  {
    if a == "" {
      assert a + b == b;
    } else {
      assert (a + b)[1..] == a[1..] + b;
      SpanConcat(a[1..], b, p);
    }
  }

  /** No fixed token begins a later one of the table. */
  lemma PrefixFree(i: nat, j: nat)
    requires i < j < FIXED_TOKENS
    ensures !StartsWith(FixedAt(j).1, FixedAt(i).1)
  {
    var a, b := FixedAt(i).1, FixedAt(j).1;
    assert a[0] != b[0] || (|a| > 1 && (|b| == 1 || a[1] != b[1]));
  }

  /** Before a space, only what the text itself begins with can match. */
  lemma StartsBeforeSpace(text: string, rest: string, k: nat)
    requires k < FIXED_TOKENS && StartsWith(text + (" " + rest), FixedAt(k).1)
    ensures StartsWith(text, FixedAt(k).1)
  {
    hide FixedAt;
    FixedEntry(k);
    var cs, f := text + (" " + rest), FixedAt(k).1;
    assert cs[|text|] == ' ' && forall m :: 0 <= m < |f| ==> f[m] == cs[m];
    assert |f| <= |text|;
    assert cs[..|f|] == text[..|f|];
  }

  lemma {:induction false} FixedSkips(cs: string, i: nat, j: nat)
    requires i <= j <= FIXED_TOKENS && forall k :: i <= k < j ==> !StartsWith(cs, FixedAt(k).1)
    ensures FixedFromChars(cs, i) == FixedFromChars(cs, j)
    decreases j - i
  {
    hide FixedAt;
    if i < j {
      FixedSkips(cs, i + 1, j);
    }
  }

  /** Where a kind is in the table. */
  function KindIndex(k: Kind): nat {
    match k
    case Dot => 0 case At => 1 case Mygo => 2 case Go => 3 case Walrus => 4 case And => 5 case Not => 6 case Or => 7
    case True => 8 case False => 9 case Var => 10 case Const => 11 case Struct => 12 case For => 13 case If => 14
    case Else => 15 case Typedef => 16 case Equal => 17 case Less => 18 case Greater => 19 case Assign => 20
    case Plus => 21 case Sub => 22 case Star => 23 case Slash => 24 case Func => 25 case Return => 26
    case LBrace => 27 case RBrace => 28 case LParent => 29 case RParent => 30 case Comma => 31 case Colon => 32
    case _ => 33
  }

  lemma InTable(k: Kind)
    requires Fixed(k)
    ensures KindIndex(k) < FIXED_TOKENS && FixedAt(KindIndex(k)) == (k, Spelling(k))
  {
  }

  lemma FixedScans(k: Kind, rest: string)
    requires Fixed(k)
    ensures FixedFromChars(Spelling(k) + (" " + rest), 0) == Some(Lexeme(Plain(k), |Spelling(k)|))
    ensures var text := Spelling(k); text != "" && !IsSpace(text[0]) && text[0] !in {'\r', '\n'}
  {
    hide FixedAt, Spelling;
    var j := KindIndex(k);
    InTable(k);
    var cs := Spelling(k) + (" " + rest);
    FixedEntry(j);
    forall i | 0 <= i < j ensures !StartsWith(cs, FixedAt(i).1) {
      if StartsWith(cs, FixedAt(i).1) {
        StartsBeforeSpace(Spelling(k), rest, i);
        PrefixFree(i, j);
      }
    }
    FixedSkips(cs, 0, j);
    assert cs[..|Spelling(k)|] == Spelling(k);
  }

  /** The longest fixed token the string begins with is found, wherever the table has it. */
  lemma LongestFixed(cs: string)
    ensures var r := FixedFromChars(cs, 0);
            match r
            case None => BeginsWithNone(cs)
            case Some(l) =>
              && l.tok.Plain? && Fixed(l.tok.k) && StartsWith(cs, Spelling(l.tok.k)) && l.len == |Spelling(l.tok.k)|
              && forall k :: Fixed(k) && StartsWith(cs, Spelling(k)) ==> |Spelling(k)| < l.len || k == l.tok.k
  {
    hide FixedAt, FixedFromChars, Spelling;
    FixedFound(cs, 0);
    match FixedFromChars(cs, 0) {
      case None =>
        forall i | 0 <= i < FIXED_TOKENS ensures !StartsWith(cs, FixedAt(i).1) {
          if StartsWith(cs, FixedAt(i).1) { FixedSome(cs, 0, i); }
        }
        NoEntryBegins(cs);
      case Some(l) =>
        var m :| 0 <= m < FIXED_TOKENS && StartsWith(cs, FixedAt(m).1)
                 && (forall j :: 0 <= j < m ==> !StartsWith(cs, FixedAt(j).1))
                 && l == Lexeme(Plain(FixedAt(m).0), |FixedAt(m).1|);
        TableSpells(m);
        forall k | Fixed(k) && StartsWith(cs, Spelling(k)) && k != l.tok.k ensures |Spelling(k)| < l.len {
          InTable(k);
          var j := KindIndex(k);
          PrefixFree(m, j);
        }
    }
  }

  /** No fixed token starts at such a character, or at a symbol none of them begins. */
  lemma NoFixed(text: string, rest: string)
    requires text != ""
    requires IsDigit(text[0]) || text[0] == '\"'
             || BeginsWithNone(text)
    ensures FixedFromChars(text + (" " + rest), 0) == None
  {
    hide FixedAt;
    var cs := text + (" " + rest);
    forall i | 0 <= i < FIXED_TOKENS ensures !StartsWith(cs, FixedAt(i).1) {
      FixedEntry(i);
      if StartsWith(cs, FixedAt(i).1) {
        assert FixedAt(i).1[0] == cs[0] == text[0];
        StartsBeforeSpace(text, rest, i);
        TableSpells(i);
      }
    }
    FixedSkips(cs, 0, FIXED_TOKENS);
  }

  lemma IntScans(i: i32, rest: string)
    requires i >= 0
    ensures var cs := Digits(i) + (" " + rest);
            IntFromChars(cs) == Some(Lexeme(IntToken(i), |Digits(i)|)) && FloatFromChars(cs) == None
  {
    hide Digits, IntValue;
    var s, cs := Digits(i), Digits(i) + (" " + rest);
    SpanConcat(s, " " + rest, IsDigit);
    DigitsValue(i);
    assert cs[..|s|] == s && cs[|s|] == ' ';
  }

  /** Digits before something else are scanned as an int. */
  lemma DigitsScan(d: string, more: string)
    requires AllDigits(d) && IntValue(d) <= I32_MAX && more != "" && !IsDigit(more[0])
    ensures IntFromChars(d + more) == Some(Lexeme(IntToken(IntValue(d)), |d|))
  {
    hide IntValue;
    SpanConcat(d, more, IsDigit);
    assert (d + more)[..|d|] == d;
  }

  lemma FloatScans(digits: string, rest: string)
    requires FloatText(digits)
    ensures FloatFromChars(digits + (" " + rest)) == Some(Lexeme(FloatToken(digits), |digits|)) && IsDigit(digits[0])
  {
    hide IntValue, IntFromChars, Span;
    var n, cs := Span(digits, IsDigit), digits + (" " + rest);
    var whole, part, last := digits[..n], digits[n + 1..], " " + rest;
    assert cs == whole + ("." + (part + last)) by {
      assert digits == whole + ("." + part);
    }
    DigitsScan(whole, "." + (part + last));
    DigitsScan(part, last);
    assert cs[n + 1..] == part + last;
    assert cs[..|digits|] == digits;
  }

  lemma StrScans(s: string, rest: string)
    requires '\"' !in s
    ensures var cs := "\"" + s + "\"" + (" " + rest);
            && StrFromChars(cs) == Some(Lexeme(StrToken(s), |s| + 2))
            && IntFromChars(cs) == None && FloatFromChars(cs) == None
  {
    var cs := "\"" + s + "\"" + (" " + rest);
    assert cs[1..] == s + ("\"" + (" " + rest));
    SpanConcat(s, "\"" + (" " + rest), NotQuote);
    assert cs[1..|s| + 1] == s;
    assert Span(cs, IsDigit) == 0;
  }

  lemma SymScans(s: string, rest: string)
    requires SymbolShaped(s)
    ensures var cs := s + (" " + rest);
            && SymbolFromChars(cs) == Some(Lexeme(SymToken(s), |s|))
            && IntFromChars(cs) == None && FloatFromChars(cs) == None && StrFromChars(cs) == None
  {
    var cs := s + (" " + rest);
    assert cs[1..] == s[1..] + (" " + rest);
    SpanConcat(s[1..], " " + rest, IsSymbolChar);
    assert cs[..|s|] == s;
    assert Span(cs, IsDigit) == 0;
  }

  /** A printed token, followed by a space, is scanned back. */
  lemma PrintScans(t: Token, rest: string)
    requires Printable(t)
    ensures var text := Print(t);
            && text != "" && !IsSpace(text[0]) && FromChars(text + (" " + rest)) == Some(Lexeme(t, |text|))
  {
    hide FixedAt, FixedFromChars, IntFromChars, FloatFromChars, StrFromChars, SymbolFromChars, Spelling, Digits,
         FloatText, IntValue;
    match t {
      case Plain(k) => if k != Enl { FixedScans(k, rest); }
      case IntToken(i) =>
        NoFixed(Digits(i), rest);
        IntScans(i, rest);
      case FloatToken(digits) =>
        FloatScans(digits, rest);
        NoFixed(digits, rest);
      case StrToken(s) =>
        NoFixed("\"" + s + "\"", rest);
        StrScans(s, rest);
      case SymToken(s) =>
        NoFixed(s, rest);
        SymScans(s, rest);
    }
  }

  lemma {:induction false} FixedSome(cs: string, i: nat, k: nat)
    requires i <= k < FIXED_TOKENS && StartsWith(cs, FixedAt(k).1)
    ensures FixedFromChars(cs, i).Some?
    decreases k - i
  {
    hide FixedAt;
    if i < k {
      FixedSome(cs, i + 1, k);
    }
  }

  /** Exactly the names that no fixed token begins are scanned back: before them the fixed
      token would be found. */
  lemma NameExact(s: string, rest: string)
    requires SymbolShaped(s)
    ensures FromChars(s + (" " + rest)) == Some(Lexeme(SymToken(s), |s|))
       <==> BeginsWithNone(s)
  {
    hide FixedAt, Spelling, FixedFromChars, IntFromChars, FloatFromChars, StrFromChars, SymbolFromChars;
    var cs := s + (" " + rest);
    if k :| Fixed(k) && StartsWith(s, Spelling(k)) {
      assert cs[..|Spelling(k)|] == s[..|Spelling(k)|];
      InTable(k);
      FixedSome(cs, 0, KindIndex(k));
      FixedFound(cs, 0);
    } else {
      PrintScans(SymToken(s), rest);
    }
  }

  const LOWER := "abcdefghijklmnopqrstuvwxyz"
  const UPPER := "ABCDEFGHIJKLMNOPQRSTUVWXYZ"

  /** The classes of characters, by name. */
  lemma Classes(c: char)
    ensures IsSpace(c) <==> c in " \t"
    ensures IsDigit(c) <==> c in "0123456789"
    ensures IsSymbolHead(c) <==> c in LOWER || c in UPPER || c == '_'
    ensures IsSymbolChar(c) <==> c in LOWER || c in UPPER || c == '_' || c in "0123456789"
  {
    hide LOWER, UPPER;
    Lower(c);
    Upper(c);
    if IsDigit(c) {
      assert "0123456789"[c as int - '0' as int] == c;
    }
  }

  lemma Lower(c: char)
    ensures 'a' <= c <= 'z' <==> c in LOWER
  {
    if 'a' <= c <= 'z' {
      assert LOWER[c as int - 'a' as int] == c;
    }
  }

  lemma Upper(c: char)
    ensures 'A' <= c <= 'Z' <==> c in UPPER
  {
    if 'A' <= c <= 'Z' {
      assert UPPER[c as int - 'A' as int] == c;
    }
  }

  /** Both characters of a carriage return and a line feed are one newline; each alone is one. */
  lemma LineEnds(rest: string)
    ensures FromChars("\r\n" + rest) == Some(Lexeme(Plain(Enl), 2))
    ensures FromChars("\n" + rest) == Some(Lexeme(Plain(Enl), 1))
    ensures rest == "" || rest[0] != '\n' ==> FromChars("\r" + rest) == Some(Lexeme(Plain(Enl), 1))
  {
  }

  /** Spaces and tabs are one token, all of them. */
  lemma Blanks(b: string, rest: string)
    requires b != "" && (forall k :: 0 <= k < |b| ==> b[k] in " \t") && (rest == "" || rest[0] !in " \t")
    ensures FromChars(b + rest) == Some(Lexeme(Plain(Space), |b|))
  {
    hide FixedFromChars, FloatFromChars, IntFromChars, StrFromChars, SymbolFromChars;
    SpanConcat(b, rest, IsSpace);
  }

  /** Digits are an int exactly when an int can hold their number; otherwise they are nothing. */
  lemma IntExact(d: string, rest: string)
    requires AllDigits(d)
    ensures FromChars(d + (" " + rest)) ==
            if IntValue(d) <= I32_MAX then Some(Lexeme(IntToken(IntValue(d)), |d|)) else None
  {
    hide FixedAt, FixedFromChars, IntValue, Span;
    var cs := d + (" " + rest);
    NoFixed(d, rest);
    SpanConcat(d, " " + rest, IsDigit);
    assert cs[..|d|] == d && cs[|d|] == ' ' && cs[0] == d[0];
  }

  /** A string that is not closed and a name that touches the end of the input are nothing. */
  lemma CutOff(s: string)
    ensures '\"' !in s ==> FromChars("\"" + s) == None
    ensures SymbolShaped(s) && BeginsWithNone(s) ==> FromChars(s) == None
  {
    hide FixedAt, FixedFromChars, IntValue, Spelling;
    if '\"' !in s {
      LongestFixed("\"" + s);
      QuoteFixed("\"" + s);
      assert ("\"" + s)[1..] == s;
      AllOf(s, NotQuote);
    }
    if SymbolShaped(s) && BeginsWithNone(s) {
      LongestFixed(s);
      AllOf(s[1..], IsSymbolChar);
    }
  }

  lemma AllOf(s: string, p: char -> bool)
    requires forall k :: 0 <= k < |s| ==> p(s[k])
    ensures Span(s, p) == |s|
  {
    SpanConcat(s, "", p);
    assert s + "" == s;
  }

  lemma QuoteFixed(cs: string)
    requires cs != "" && cs[0] == '\"'
    ensures BeginsWithNone(cs)
  {
  }

  /** `format` is read as `for`, and `mat` is what comes next. */
  lemma FormatExample(rest: string)
    ensures FromChars("format " + rest) == Some(Lexeme(Plain(For), 3))
  {
    hide FixedAt, FixedFromChars, IntFromChars, FloatFromChars, StrFromChars, SymbolFromChars;
    var cs := "format " + rest;
    assert FixedAt(13) == (For, "for") && StartsWith(cs, "for") by { ForEntry(cs); }
    forall i | 0 <= i < 13 ensures !StartsWith(cs, FixedAt(i).1) {
      NotBefore(cs, i);
    }
    FixedSkips(cs, 0, 13);
    FixedStep(cs, 13);
  }

  lemma ForEntry(cs: string)
    requires |cs| > 3 && cs[0] == 'f' && cs[1] == 'o' && cs[2] == 'r'
    ensures FixedAt(13) == (For, "for") && StartsWith(cs, "for")
  {
    assert cs[..3] == "for";
  }

  lemma NotBefore(cs: string, i: nat)
    requires |cs| > 3 && cs[0] == 'f' && cs[1] == 'o' && i < 13
    ensures !StartsWith(cs, FixedAt(i).1)
  {
    assert FixedAt(i).1[0] != 'f' || (|FixedAt(i).1| > 1 && FixedAt(i).1[1] == 'l');
  }

  /** A list of printable tokens, printed each with a space after it, lexes to that list. */
  lemma {:induction false} PrintLexes(ts: seq<Token>)
    requires forall k :: 0 <= k < |ts| ==> Printable(ts[k])
    ensures Lexable(PrintAll(ts)) && Toks(PrintAll(ts)) == ts
    ensures PrintAll(ts) == "" || !IsSpace(PrintAll(ts)[0])
  {
    hide FromChars, Print;
    if ts != [] {
      var text, rest := Print(ts[0]), PrintAll(ts[1..]);
      PrintLexes(ts[1..]);
      PrintScans(ts[0], rest);
      var cs := text + (" " + rest);
      assert cs[|text|..] == " " + rest;
      OneSpace(rest);
      assert ts == [ts[0]] + ts[1..];
    }
  }

  lemma OneSpace(rest: string)
    requires Lexable(rest) && (rest == "" || !IsSpace(rest[0]))
    ensures Lexable(" " + rest) && SkipSpaces(" " + rest) == rest
  {
    hide FixedAt, FixedFromChars, IntFromChars, FloatFromChars, StrFromChars, SymbolFromChars;
    var cs := " " + rest;
    assert cs[1..] == rest;
    SpanConcat(" ", rest, IsSpace);
    assert FromChars(cs) == Some(Lexeme(Plain(Space), 1));
    TokenExtent(rest);
  }
}
