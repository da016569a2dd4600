/** tokenize (script_tokenizer.cpp). A char stands for one byte of the script. */
module ScriptTokenizer {
  import opened ScriptTokens

  predicate IsSpace(c: char) {
    c == ' ' || c == '\t' || c == '\n' || c == '\r'
  }

  predicate IsDigit(c: char) {
    '0' <= c <= '9'
  }

  predicate IsHexDigit(c: char) {
    IsDigit(c) || 'a' <= c <= 'f' || 'A' <= c <= 'F'
  }

  predicate IsAlpha(c: char) {
    'a' <= c <= 'z' || 'A' <= c <= 'Z'
  }

  predicate IsIdentStart(c: char) {
    IsAlpha(c) || c == '_' || c == '@'
  }

  predicate IsIdentChar(c: char) {
    IsAlpha(c) || IsDigit(c) || c == '_'
  }

  /** The first index from i on whose character is not accepted by p. */
  function Span(src: string, i: nat, p: char -> bool): (j: nat)
    requires i <= |src|
    ensures i <= j <= |src|
    ensures forall k :: i <= k < j ==> p(src[k])
    ensures j < |src| ==> !p(src[j])
    decreases |src| - i
  {
    if i < |src| && p(src[i]) then Span(src, i + 1, p) else i
  }

  /** Is there a character at i, and does p accept it? */
  predicate Sees(src: string, i: nat, p: char -> bool) {
    i < |src| && p(src[i])
  }

  predicate IsGarbage(c: char) {
    IsIdentChar(c) || c == '.'
  }

  /** What a number scan found, and where it stopped. */
  datatype Number = Number(isReal: bool, hasError: bool, end: nat)

  function ScanHex(src: string, i: nat): (r: Number)
    requires i + 2 <= |src|
    ensures i + 2 <= r.end <= |src|
  {
    var j := Span(src, i + 2, IsHexDigit);
    if Sees(src, j, IsGarbage) then Number(false, true, Span(src, j, IsGarbage))
    else Number(false, j == i + 2, j)
  }

  /** The optional fraction of a decimal number whose integer part ends at i. */
  function ScanFraction(src: string, i: nat): (r: Number)
    requires i <= |src|
    ensures i <= r.end <= |src|
  {
    if !(i < |src| && src[i] == '.') || (i + 1 < |src| && src[i + 1] == '.') then Number(false, false, i)
    else if Sees(src, i + 1, IsDigit) then Number(true, false, Span(src, i + 1, IsDigit))
    else Number(false, true, Span(src, i + 1, IsGarbage))
  }

  /** The optional exponent after r. */
  function ScanExponent(src: string, r: Number): (e: Number)
    requires r.end <= |src|
    ensures r.end <= e.end <= |src|
  {
    var i := r.end;
    if r.hasError || !(i < |src| && (src[i] == 'e' || src[i] == 'E')) then r
    else
      var j := if i + 1 < |src| && (src[i + 1] == '+' || src[i + 1] == '-') then i + 2 else i + 1;
      Number(true, !Sees(src, j, IsDigit), Span(src, j, IsDigit))
  }

  function ScanDecimal(src: string, i: nat): (r: Number)
    requires i <= |src|
    ensures i <= r.end <= |src|
    ensures Sees(src, i, IsDigit) ==> i < r.end
  {
    var e := ScanExponent(src, ScanFraction(src, Span(src, i, IsDigit)));
    if !e.hasError && Sees(src, e.end, IsIdentStart) then
      Number(e.isReal, true, Span(src, e.end, IsIdentChar))
    else e
  }

  function MatchTwoCharOp(c: char, next: char): TokenType {
    if c == '.' && next == '.' then DotDot
    else if c == '&' && next == '&' then AmpAmp
    else if c == '|' && next == '|' then PipePipe
    else if next != '=' then Error
    else match c
      case '=' => EqualEqual
      case '!' => BangEqual
      case '<' => LessEqual
      case '>' => GreaterEqual
      case ':' => ColonEqual
      case '+' => PlusEqual
      case '-' => MinusEqual
      case '*' => StarEqual
      case '/' => SlashEqual
      case _ => Error
  }

  function MatchSingleCharOp(c: char): TokenType {
    match c
    case '+' => Plus
    case '-' => Minus
    case '*' => Star
    case '/' => Slash
    case '&' => Ampersand
    case '|' => Pipe
    case '^' => Caret
    case '~' => Tilde
    case '!' => Bang
    case '<' => Less
    case '>' => Greater
    case '=' => Equal
    case '?' => Question
    case ':' => Colon
    case '(' => LeftParen
    case ')' => RightParen
    case ';' => Semicolon
    case _ => Error
  }

  predicate IsHexAt(src: string, i: nat)
    requires i < |src|
  {
    src[i] == '0' && i + 1 < |src| && (src[i + 1] == 'x' || src[i + 1] == 'X')
  }

  function NumberKind(n: Number): TokenType {
    if n.hasError then Error else if n.isReal then Real else Integer
  }

  /** The token that starts at i, and the index after it. */
  datatype Scanned = Scanned(lex: Lexeme, end: nat)

  function ScanToken(src: string, i: nat): (r: Scanned)
    requires i < |src| && !IsSpace(src[i])
    ensures i < r.end <= |src|
  {
    var c := src[i];
    if c == '\'' then
      var j := Span(src, i + 1, (c: char) => c != '\'');
      if j < |src| then Scanned(Lexeme(String, src[i + 1..j]), j + 1)
      else Scanned(Lexeme(Error, src[i..j]), j)
    else if IsDigit(c) then
      var n := if IsHexAt(src, i) then ScanHex(src, i) else ScanDecimal(src, i);
      Scanned(Lexeme(NumberKind(n), src[i..n.end]), n.end)
    else if IsIdentStart(c) then
      var j := Span(src, i + 1, IsIdentChar);
      var text := src[i..j];
      Scanned(Lexeme(if text == "true" || text == "false" then Boolean else Identifier, text), j)
    else if i + 1 < |src| && MatchTwoCharOp(c, src[i + 1]) != Error then
      Scanned(Lexeme(MatchTwoCharOp(c, src[i + 1]), src[i..i + 2]), i + 2)
    else
      Scanned(Lexeme(MatchSingleCharOp(c), src[i..i + 1]), i + 1)
  }

  function Tokenize(src: string, i: nat): seq<Token>
    requires i <= |src|
    decreases |src| - i
  {
    if i == |src| then [Token(Lexeme(EndOfInput, ""), i)]
    else if IsSpace(src[i]) then Tokenize(src, i + 1)
    else
      var t := ScanToken(src, i);
      [Token(t.lex, i)] + Tokenize(src, t.end)
  }

  // ---------------------------------------------------------------- the scanner itself

  /** A loop that steps over characters p accepts. */
  method Skip(src: string, start: nat, p: char -> bool) returns (i: nat)
    requires start <= |src|
    ensures i == Span(src, start, p)
  {
    i := start;
    while i < |src| && p(src[i])
      invariant start <= i <= |src| && Span(src, i, p) == Span(src, start, p)
    {
      i := i + 1;
    }
  }

  method ScanHexNumber(src: string, start: nat) returns (r: Number)
    requires start + 2 <= |src|
    ensures r == ScanHex(src, start)
  {
    var i := start + 2;
    var hasError := false;
    if i >= |src| || !IsHexDigit(src[i]) {
      hasError := true;
    } else {
      i := Skip(src, i, IsHexDigit);
    }
    if i < |src| && (src[i] == '.' || IsIdentChar(src[i])) {
      hasError := true;
      i := Skip(src, i, IsGarbage);
    }
    r := Number(false, hasError, i);
  }

  method ScanDecimalNumber(src: string, start: nat) returns (r: Number)
    requires start <= |src|
    ensures r == ScanDecimal(src, start)
  {
    hide Span, ScanFraction, ScanExponent, IsDigit, IsIdentStart, IsIdentChar;
    var i := Skip(src, start, IsDigit);
    r := ScanFractionPart(src, i);
    r := ScanExponentPart(src, r);
    if !r.hasError && r.end < |src| && IsIdentStart(src[r.end]) {
      i := Skip(src, r.end, IsIdentChar);
      r := Number(r.isReal, true, i);
    }
  }

  method ScanFractionPart(src: string, start: nat) returns (r: Number)
    requires start <= |src|
    ensures r == ScanFraction(src, start)
  {
    hide Span, IsDigit, IsGarbage;
    var i := start;
    if i < |src| && src[i] == '.' && !(i + 1 < |src| && src[i + 1] == '.') {
      if i + 1 < |src| && IsDigit(src[i + 1]) {
        i := Skip(src, i + 1, IsDigit);
        return Number(true, false, i);
      }
      i := Skip(src, i + 1, IsGarbage);
      return Number(false, true, i);
    }
    return Number(false, false, i);
  }

  method ScanExponentPart(src: string, n: Number) returns (r: Number)
    requires n.end <= |src|
    ensures r == ScanExponent(src, n)
  {
    hide Span, IsDigit;
    var i := n.end;
    if n.hasError || i >= |src| || (src[i] != 'e' && src[i] != 'E') {
      return n;
    }
    i := i + 1;
    if i < |src| && (src[i] == '+' || src[i] == '-') {
      i := i + 1;
    }
    if i >= |src| || !IsDigit(src[i]) {
      assert Span(src, i, IsDigit) == i by { NothingToSpan(src, i, IsDigit); }
      return Number(true, true, i);
    }
    i := Skip(src, i, IsDigit);
    return Number(true, false, i);
  }

  lemma NothingToSpan(src: string, i: nat, p: char -> bool)
    requires i <= |src| && (i < |src| ==> !p(src[i]))
    ensures Span(src, i, p) == i
  {
  }

  /** The body of the loop of tokenize behind white space: one token, and where it ends. */
  method NextToken(src: string, start: nat) returns (l: Lexeme, i: nat)
    requires start < |src| && !IsSpace(src[start])
    ensures Scanned(l, i) == ScanToken(src, start)
  {
    hide Span, ScanHex, ScanDecimal, MatchTwoCharOp, MatchSingleCharOp, IsDigit, IsIdentStart, IsIdentChar;
    var c := src[start];
    i := start;
    if c == '\'' {
      i := Skip(src, i + 1, (c: char) => c != '\'');
      if i < |src| {
        l := Lexeme(String, src[start + 1..i]);
        i := i + 1;
      } else {
        l := Lexeme(Error, src[start..i]);
      }
    } else if IsDigit(c) {
      var n;
      if c == '0' && i + 1 < |src| && (src[i + 1] == 'x' || src[i + 1] == 'X') {
        n := ScanHexNumber(src, i);
      } else {
        n := ScanDecimalNumber(src, i);
      }
      i := n.end;
      l := Lexeme(NumberKind(n), src[start..i]);
    } else if IsIdentStart(c) {
      i := Skip(src, i + 1, IsIdentChar);
      var text := src[start..i];
      l := Lexeme(if text == "true" || text == "false" then Boolean else Identifier, text);
    } else if i + 1 < |src| && MatchTwoCharOp(c, src[i + 1]) != Error {
      l := Lexeme(MatchTwoCharOp(c, src[i + 1]), src[start..start + 2]);
      i := i + 2;
    } else {
      l := Lexeme(MatchSingleCharOp(c), src[start..start + 1]);
      i := i + 1;
    }
  }

  method TokenizeScript(src: string) returns (tokens: seq<Token>)
    ensures tokens == Tokenize(src, 0)
  {
    hide ScanToken, IsSpace;
    tokens := [];
    var i := 0;
    while i < |src|
      invariant i <= |src| && Tokenize(src, 0) == tokens + Tokenize(src, i)
    {
      if IsSpace(src[i]) {
        i := i + 1;
        continue;
      }
      var start := i;
      ghost var done := tokens;
      var l;
      l, i := NextToken(src, i);
      tokens := tokens + [Token(l, start)];
      assert done + ([Token(l, start)] + Tokenize(src, i)) == tokens + Tokenize(src, i);
    }
    tokens := tokens + [Token(Lexeme(EndOfInput, ""), i)];
  }
}
