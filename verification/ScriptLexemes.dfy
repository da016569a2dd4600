/** What the scripting language's lexemes look like, defined without the scanner, and the
    theorems that the scanner recognises exactly them and skips nothing but whitespace. */
module ScriptLexemes {
  import opened ScriptTokens
  import opened ScriptTokenizer

  predicate Digits(s: string) {
    s != "" && forall k :: 0 <= k < |s| ==> IsDigit(s[k])
  }

  predicate HexText(s: string) {
    |s| > 2 && s[0] == '0' && (s[1] == 'x' || s[1] == 'X') && forall k :: 2 <= k < |s| ==> IsHexDigit(s[k])
  }

  /** e or E, an optional sign, digits. */
  predicate Exponent(s: string) {
    && |s| >= 2 && (s[0] == 'e' || s[0] == 'E')
    && (Digits(s[1..]) || ((s[1] == '+' || s[1] == '-') && Digits(s[2..])))
  }

  /** A point and digits. */
  predicate Fraction(s: string) {
    s != "" && s[0] == '.' && Digits(s[1..])
  }

  /** Digits up to a, a fraction up to b, an exponent; at least one of the last two. */
  predicate RealParts(s: string, a: nat, b: nat) {
    && a <= b <= |s| && Digits(s[..a]) && a < |s|
    && (a == b || Fraction(s[a..b]))
    && (b == |s| || Exponent(s[b..]))
  }

  predicate RealForm(s: string) {
    exists a: nat, b: nat | a <= |s| && b <= |s| :: RealParts(s, a, b)
  }

  predicate IdentifierText(s: string) {
    s != "" && IsIdentStart(s[0]) && forall k :: 1 <= k < |s| ==> IsIdentChar(s[k])
  }

  /** How an operator or delimiter is written; empty for the other kinds. */
  function Spelling(t: TokenType): string {
    match t
    case Plus => "+" case Minus => "-" case Star => "*" case Slash => "/" case DotDot => ".."
    case Ampersand => "&" case Pipe => "|" case Caret => "^" case Tilde => "~"
    case AmpAmp => "&&" case PipePipe => "||" case Bang => "!"
    case EqualEqual => "==" case BangEqual => "!=" case Less => "<" case Greater => ">"
    case LessEqual => "<=" case GreaterEqual => ">="
    case ColonEqual => ":=" case Equal => "=" case PlusEqual => "+=" case MinusEqual => "-="
    case StarEqual => "*=" case SlashEqual => "/="
    case Question => "?" case Colon => ":" case LeftParen => "(" case RightParen => ")" case Semicolon => ";"
    case _ => ""
  }

  predicate ValidLexeme(l: Lexeme) {
    match l.kind
    case Integer => Digits(l.text) || HexText(l.text)
    case Real => RealForm(l.text)
    case String => forall k :: 0 <= k < |l.text| ==> l.text[k] != '\''
    case Boolean => l.text == "true" || l.text == "false"
    case Identifier => IdentifierText(l.text) && l.text != "true" && l.text != "false"
    case EndOfInput | Error => false
    case k => l.text == Spelling(k)
  }

  /** The characters a token takes up in the script: a string literal has its quotes there. */
  function Spell(l: Lexeme): string {
    if l.kind == String then "'" + l.text + "'" else l.text
  }

  ghost predicate Spelled(src: string, i: nat, text: string) {
    i + |text| <= |src| && src[i..i + |text|] == text
  }

  /** The character at i, with a space behind the end of the script. */
  function Next(src: string, i: nat): char {
    if i < |src| then src[i] else ' '
  }

  predicate WordChar(c: char) {
    'a' <= c <= 'z' || 'A' <= c <= 'Z' || '0' <= c <= '9' || c == '_'
  }

  /** A decimal number ends where no letter, digit, underscore or at sign follows. */
  predicate EndsDecimal(src: string, e: nat) {
    !WordChar(Next(src, e)) && Next(src, e) != '@'
  }

  /** Where a lexeme may end. An integer is not followed by a point, unless there are two; an operator
      of one character is not the beginning of one of two. */
  ghost predicate Ends(l: Lexeme, src: string, e: nat) {
    match l.kind
    case Integer =>
      if HexText(l.text) then !WordChar(Next(src, e)) && Next(src, e) != '.'
      else EndsDecimal(src, e) && (Next(src, e) == '.' ==> Next(src, e + 1) == '.')
    case Real => EndsDecimal(src, e)
    case Boolean | Identifier => !WordChar(Next(src, e))
    case String => true
    case _ => |l.text| == 1 ==> forall u :: Spelling(u) != l.text + [Next(src, e)]
  }

  /** The lexeme l is written in src from i to e, and ends there. */
  ghost predicate Lexes(src: string, i: nat, l: Lexeme, e: nat) {
    ValidLexeme(l) && Spelled(src, i, Spell(l)) && e == i + |Spell(l)| && Ends(l, src, e)
  }

  lemma {:induction false} SpanIs(src: string, i: nat, j: nat, p: char -> bool)
    requires i <= j <= |src|
    requires forall k :: i <= k < j ==> p(src[k])
    requires j == |src| || !p(src[j])
    ensures Span(src, i, p) == j
    decreases j - i
  {
    if i < j {
      SpanIs(src, i + 1, j, p);
    }
  }

  // ---------------------------------------------------------------- completeness

  lemma DigitsScan(src: string, i: nat, text: string)
    requires Digits(text) && Spelled(src, i, text) && EndsDecimal(src, i + |text|)
    requires Next(src, i + |text|) == '.' ==> Next(src, i + |text| + 1) == '.'
    ensures ScanDecimal(src, i) == Number(false, false, i + |text|) && !IsHexAt(src, i)
  {
    hide Span;
    forall k | i <= k < i + |text| ensures IsDigit(src[k]) {
      assert src[i..i + |text|][k - i] == text[k - i];
    }
    SpanIs(src, i, i + |text|, IsDigit);
  }

  lemma HexScan(src: string, i: nat, text: string)
    requires HexText(text) && Spelled(src, i, text)
    requires !WordChar(Next(src, i + |text|)) && Next(src, i + |text|) != '.'
    ensures IsHexAt(src, i) && ScanHex(src, i) == Number(false, false, i + |text|)
  {
    hide Span;
    forall k | 0 <= k < |text| ensures src[i + k] == text[k] {
      assert src[i..i + |text|][k] == text[k];
    }
    assert src[i + 0] == '0';
    forall k | i + 2 <= k < i + |text| ensures IsHexDigit(src[k]) {
      assert src[i + (k - i)] == text[k - i];
    }
    SpanIs(src, i + 2, i + |text|, IsHexDigit);
  }

  lemma ExponentScan(src: string, i: nat, text: string, r: Number)
    requires Exponent(text) && Spelled(src, i, text) && EndsDecimal(src, i + |text|) && !r.hasError && r.end == i
    ensures ScanExponent(src, r) == Number(true, false, i + |text|)
  {
    hide Span;
    forall k | 0 <= k < |text| ensures src[i + k] == text[k] {
      assert src[i..i + |text|][k] == text[k];
    }
    assert src[i + 0] == text[0] && src[i + 1] == text[1];
    var d := if Digits(text[1..]) then 1 else 2;
    forall k | i + d <= k < i + |text| ensures IsDigit(src[k]) {
      assert text[d..][k - i - d] == text[k - i] == src[i + (k - i)];
    }
    SpanIs(src, i + d, i + |text|, IsDigit);
  }

  lemma RealScan(src: string, i: nat, text: string)
    requires RealForm(text) && Spelled(src, i, text) && EndsDecimal(src, i + |text|)
    ensures text != "" && ScanDecimal(src, i) == Number(true, false, i + |text|) && !IsHexAt(src, i) && IsDigit(src[i])
  {
    hide Span, Exponent, Fraction;
    var a: nat, b: nat :| a <= |text| && b <= |text| && RealParts(text, a, b);
    RealScanParts(src, i, text, a, b);
  }

  lemma RealScanParts(src: string, i: nat, text: string, a: nat, b: nat)
    requires RealParts(text, a, b) && Spelled(src, i, text) && EndsDecimal(src, i + |text|)
    ensures text != "" && ScanDecimal(src, i) == Number(true, false, i + |text|) && !IsHexAt(src, i) && IsDigit(src[i])
  {
    hide Span, ScanExponent, ScanFraction, Digits, Fraction, Exponent, ScanDecimal;
    Letters(src, i, text);
    RealStart(text, a, b);
    assert src[i + 0] == text[0] && src[i + a] == text[a];
    forall k | i <= k < i + a ensures IsDigit(src[k]) {
      assert src[i + (k - i)] == text[k - i];
    }
    SpanIs(src, i, i + a, IsDigit);
    FractionScan(src, i, text, a, b);
    if b < |text| {
      TailStands(src, i, text, b);
      ExponentScan(src, i + b, text[b..], ScanFraction(src, i + a));
    } else {
      NoExponent(src, ScanFraction(src, i + a));
    }
    DecimalEnds(src, i, ScanExponent(src, ScanFraction(src, i + a)));
  }

  lemma Letters(src: string, i: nat, text: string)
    requires Spelled(src, i, text)
    ensures forall k :: 0 <= k < |text| ==> src[i + k] == text[k]
  {
    forall k | 0 <= k < |text| ensures src[i + k] == text[k] {
      assert src[i..i + |text|][k] == text[k];
    }
  }

  lemma TailStands(src: string, i: nat, text: string, b: nat)
    requires Spelled(src, i, text) && b <= |text|
    ensures Spelled(src, i + b, text[b..])
  {
    assert src[i + b..i + |text|] == src[i..i + |text|][b..];
  }

  /** A real starts with a digit, no x after a leading zero, and goes on, after the digits, with a point
      or an exponent. */
  lemma RealStart(text: string, a: nat, b: nat)
    requires RealParts(text, a, b)
    ensures a > 0 && forall k :: 0 <= k < a ==> IsDigit(text[k])
    ensures text[a] == '.' || text[a] == 'e' || text[a] == 'E'
  {
    forall k | 0 <= k < a ensures IsDigit(text[k]) {
      assert text[..a][k] == text[k];
    }
    if a == b {
      assert text[b..][0] == text[a];
    } else {
      assert text[a..b][0] == text[a];
    }
  }

  lemma DecimalEnds(src: string, i: nat, e: Number)
    requires i <= |src| && e == ScanExponent(src, ScanFraction(src, Span(src, i, IsDigit)))
    requires EndsDecimal(src, e.end)
    ensures ScanDecimal(src, i) == e
  {
    hide ScanExponent, ScanFraction, Span;
  }

  lemma NoExponent(src: string, r: Number)
    requires r.end <= |src| && EndsDecimal(src, r.end)
    ensures ScanExponent(src, r) == r
  {
  }

  lemma FractionScan(src: string, i: nat, text: string, a: nat, b: nat)
    requires RealParts(text, a, b) && Spelled(src, i, text) && EndsDecimal(src, i + |text|)
    ensures ScanFraction(src, i + a) == Number(a < b, false, i + b)
  {
    hide Span;
    forall k | 0 <= k < |text| ensures src[i + k] == text[k] {
      assert src[i..i + |text|][k] == text[k];
    }
    assert src[i + a] == text[a];
    if a == b {
      assert text[b..][0] == text[a];
    } else {
      assert text[a..b][0] == text[a];
      forall k | i + a + 1 <= k < i + b ensures IsDigit(src[k]) {
        assert text[a..b][1..][k - i - a - 1] == text[k - i] == src[i + (k - i)];
      }
      if b < |text| {
        assert text[b..][0] == text[b] == src[i + b];
      }
      assert text[a..b][1..][0] == text[a + 1] == src[i + (a + 1)];
      SpanIs(src, i + a + 1, i + b, IsDigit);
    }
  }

  lemma IdentifierScan(src: string, i: nat, text: string)
    requires IdentifierText(text) && Spelled(src, i, text) && !WordChar(Next(src, i + |text|))
    ensures IsIdentStart(src[i]) && Span(src, i + 1, IsIdentChar) == i + |text|
  {
    hide Span;
    forall k | 0 <= k < |text| ensures src[i + k] == text[k] {
      assert src[i..i + |text|][k] == text[k];
    }
    assert src[i + 0] == text[0];
    forall k | i + 1 <= k < i + |text| ensures IsIdentChar(src[k]) {
      assert src[i + (k - i)] == text[k - i];
    }
    SpanIs(src, i + 1, i + |text|, IsIdentChar);
  }

  lemma StringScan(src: string, i: nat, text: string)
    requires Spelled(src, i, "'" + text + "'") && forall k :: 0 <= k < |text| ==> text[k] != '\''
    ensures src[i] == '\'' && ScanToken(src, i) == Scanned(Lexeme(String, text), i + |text| + 2)
  {
    hide Span, ScanHex, ScanDecimal, MatchTwoCharOp, MatchSingleCharOp, IsIdentStart;
    var whole := "'" + text + "'";
    forall k | 0 <= k < |whole| ensures src[i + k] == whole[k] {
      assert src[i..i + |whole|][k] == whole[k];
    }
    assert src[i + 0] == whole[0] == '\'';
    var j := i + 1 + |text|;
    assert src[i + (1 + |text|)] == whole[1 + |text|] == '\'';
    forall k | i + 1 <= k < j ensures src[k] != '\'' {
      assert src[i + (k - i)] == whole[k - i] == text[k - i - 1];
    }
    SpanIs(src, i + 1, j, (c: char) => c != '\'');
    assert src[i + 1..j] == whole[1..1 + |text|] == text;
  }

  lemma OperatorScan(src: string, i: nat, t: TokenType)
    requires Spelling(t) != "" && Spelled(src, i, Spelling(t))
    requires |Spelling(t)| == 1 ==> forall u :: Spelling(u) != Spelling(t) + [Next(src, i + 1)]
    ensures !IsSpace(src[i]) && !IsDigit(src[i]) && !IsIdentStart(src[i]) && src[i] != '\''
    ensures if i + 1 < |src| && MatchTwoCharOp(src[i], src[i + 1]) != Error
            then MatchTwoCharOp(src[i], src[i + 1]) == t && |Spelling(t)| == 2
            else MatchSingleCharOp(src[i]) == t && |Spelling(t)| == 1
  {
    hide MatchTwoCharOp, MatchSingleCharOp, Spelling;
    var text := Spelling(t);
    assert src[i..i + |text|][0] == text[0];
    SpellingMatches(t);
    if |text| == 2 {
      assert src[i..i + |text|][1] == text[1];
    } else if i + 1 < |src| {
      OperatorSound(src[i], src[i + 1]);
      assert text == [src[i]] && text + [Next(src, i + 1)] == [src[i], src[i + 1]];
      assert Spelling(MatchTwoCharOp(src[i], src[i + 1])) != [src[i], src[i + 1]];
    }
  }

  lemma SpellingMatches(t: TokenType)
    requires Spelling(t) != ""
    ensures |Spelling(t)| <= 2 && t != Error
    ensures |Spelling(t)| == 1 ==> MatchSingleCharOp(Spelling(t)[0]) == t
    ensures |Spelling(t)| == 2 ==> MatchTwoCharOp(Spelling(t)[0], Spelling(t)[1]) == t
    ensures var c := Spelling(t)[0]; !IsSpace(c) && !IsDigit(c) && !IsIdentStart(c) && c != '\''
  {
  }

  lemma OperatorRecognised(src: string, i: nat, l: Lexeme)
    requires Spelling(l.kind) != "" && l.text == Spelling(l.kind) && Spelled(src, i, l.text)
    requires |l.text| == 1 ==> forall u :: Spelling(u) != l.text + [Next(src, i + 1)]
    ensures !IsSpace(src[i]) && ScanToken(src, i) == Scanned(l, i + |l.text|)
  {
    hide Span, ScanHex, ScanDecimal, MatchTwoCharOp, MatchSingleCharOp;
    hide IsHexAt, Spelling, IsDigit, IsIdentStart, IsSpace;
    OperatorScan(src, i, l.kind);
  }

  lemma LiteralRecognised(src: string, i: nat, l: Lexeme)
    requires l.kind == Integer || l.kind == Real || l.kind == Boolean || l.kind == Identifier
    requires ValidLexeme(l) && Spelled(src, i, l.text) && Ends(l, src, i + |l.text|)
    ensures l.text != "" && !IsSpace(src[i]) && ScanToken(src, i) == Scanned(l, i + |l.text|)
  {
    hide Span, ScanHex, ScanDecimal, MatchTwoCharOp, MatchSingleCharOp, RealForm, IsHexAt, Spelling;
    match l.kind
    case Integer =>
      assert src[i..i + |l.text|][0] == l.text[0];
      if Digits(l.text) { DigitsScan(src, i, l.text); } else { HexScan(src, i, l.text); }
    case Real => RealScan(src, i, l.text);
    case _ => IdentifierScan(src, i, l.text);
  }

  /** A valid lexeme that ends where it may is scanned as itself. */
  lemma Recognised(src: string, i: nat, l: Lexeme)
    requires Lexes(src, i, l, i + |Spell(l)|)
    ensures Spell(l) != "" && !IsSpace(src[i]) && ScanToken(src, i) == Scanned(l, i + |Spell(l)|)
  {
    hide Span, ScanToken, RealForm, IsSpace;
    match l.kind
    case Integer | Real | Boolean | Identifier => LiteralRecognised(src, i, l);
    case String => StringScan(src, i, l.text);
      assert !IsSpace('\'') by { QuoteNotSpace(); }
    case _ => OperatorRecognised(src, i, l);
  }

  lemma QuoteNotSpace()
    ensures !IsSpace('\'')
  {
  }

  // ---------------------------------------------------------------- soundness

  lemma SpanDigits(src: string, i: nat, j: nat)
    requires i < j <= |src| && forall k :: i <= k < j ==> IsDigit(src[k])
    ensures Digits(src[i..j])
  {
  }

  lemma Slices(src: string, i: nat, j: nat, k: nat, l: nat)
    requires i <= j <= k <= l <= |src|
    ensures src[i..l][..j - i] == src[i..j] && src[i..l][j - i..k - i] == src[j..k] && src[i..l][k - i..] == src[k..l]
  {
    var t := src[i..l];
    assert t[..j - i] == src[i..j];
    var middle := t[j - i..k - i];
    assert |middle| == k - j;
    forall m | 0 <= m < |middle| ensures middle[m] == src[j..k][m] {
      assert middle[m] == t[j - i + m] == src[j + m];
    }
    assert t[k - i..] == src[k..l];
  }

  lemma DecimalSound(src: string, i: nat)
    requires i < |src| && IsDigit(src[i]) && !ScanDecimal(src, i).hasError
    ensures var n := ScanDecimal(src, i);
      i < n.end && (if n.isReal then RealForm(src[i..n.end]) else Digits(src[i..n.end]))
  {
    hide Span, ScanExponent, ScanFraction, ScanDecimal, Digits, Exponent, RealForm;
    DecimalParts(src, i);
    var j := Span(src, i, IsDigit);
    var f := ScanFraction(src, j);
    var e := ScanExponent(src, f);
    SpanDigits(src, i, j);
    FractionSound(src, j);
    ExponentSound(src, f);
    Slices(src, i, j, f.end, e.end);
    if e.isReal {
      IsRealForm(src[i..e.end], j - i, f.end - i);
    }
  }

  lemma DecimalParts(src: string, i: nat)
    requires i < |src| && IsDigit(src[i]) && !ScanDecimal(src, i).hasError
    ensures i < Span(src, i, IsDigit)
    ensures ScanDecimal(src, i) == ScanExponent(src, ScanFraction(src, Span(src, i, IsDigit)))
  {
    hide ScanExponent, ScanFraction;
  }

  lemma IsRealForm(text: string, a: nat, b: nat)
    requires RealParts(text, a, b)
    ensures RealForm(text)
  {
    hide Digits, Fraction, Exponent;
  }

  lemma FractionSound(src: string, j: nat)
    requires j <= |src|
    ensures var f := ScanFraction(src, j);
      !f.hasError ==> if f.isReal then Fraction(src[j..f.end]) else f.end == j
  {
    hide Span;
    var f := ScanFraction(src, j);
    if !f.hasError && f.isReal {
      SpanDigits(src, j + 1, f.end);
      assert src[j..f.end][1..] == src[j + 1..f.end];
    }
  }

  lemma ExponentSound(src: string, r: Number)
    requires r.end <= |src|
    ensures var e := ScanExponent(src, r);
      && (r.hasError ==> e.hasError)
      && (!e.hasError ==> if e.end == r.end then e == r else e.isReal && Exponent(src[r.end..e.end]))
  {
    hide Span;
    var e := ScanExponent(src, r);
    if !e.hasError && e.end != r.end {
      var text := src[r.end..e.end];
      var d := if src[r.end + 1] == '+' || src[r.end + 1] == '-' then 2 else 1;
      SpanDigits(src, r.end + d, e.end);
      assert text[d..] == src[r.end + d..e.end];
    }
  }

  lemma HexSound(src: string, i: nat)
    requires i < |src| && IsHexAt(src, i) && !ScanHex(src, i).hasError
    ensures HexText(src[i..ScanHex(src, i).end])
  {
    hide Span;
  }

  lemma NumberSound(src: string, i: nat)
    requires i < |src| && IsDigit(src[i]) && ScanToken(src, i).lex.kind != Error
    ensures ValidLexeme(ScanToken(src, i).lex)
  {
    hide Span, ScanHex, ScanDecimal, RealForm, Digits, HexText;
    if IsHexAt(src, i) {
      HexSound(src, i);
      HexIsInteger(src, i);
    } else {
      DecimalSound(src, i);
    }
  }

  lemma HexIsInteger(src: string, i: nat)
    requires i + 2 <= |src|
    ensures !ScanHex(src, i).isReal
  {
    hide Span;
  }

  lemma OperatorSound(c: char, next: char)
    ensures var t := MatchTwoCharOp(c, next); t != Error ==> Spelling(t) == [c, next]
    ensures var t := MatchSingleCharOp(c); t != Error ==> Spelling(t) == [c]
  {
    SingleSound(c);
    hide MatchSingleCharOp;
  }

  lemma SingleSound(c: char)
    ensures var t := MatchSingleCharOp(c); t != Error ==> Spelling(t) == [c]
  {
  }

  lemma SpellingKinds(t: TokenType)
    requires Spelling(t) != ""
    ensures ValidLexeme(Lexeme(t, Spelling(t)))
  {
    hide Digits, RealForm, HexText, IdentifierText;
  }

  /** Every token is spelled in the script exactly where it was found, and a token that is not
      an Error is a valid lexeme. */
  lemma ScanSound(src: string, i: nat)
    requires i < |src| && !IsSpace(src[i])
    ensures var r := ScanToken(src, i);
      && src[i..r.end] == Spell(r.lex) && r.lex.kind != EndOfInput
      && (r.lex.kind != Error ==> ValidLexeme(r.lex))
  {
    hide Span, ScanHex, ScanDecimal, MatchTwoCharOp, MatchSingleCharOp;
    hide RealForm, Digits, HexText, Spelling, ValidLexeme;
    var c := src[i];
    if c == '\'' {
      QuotedSound(src, i);
    } else if IsDigit(c) {
      if ScanToken(src, i).lex.kind != Error { NumberSound(src, i); }
    } else if IsIdentStart(c) {
      NameSound(src, i);
    } else {
      OperatorSound(c, if i + 1 < |src| then src[i + 1] else ' ');
      NoLiteralOperator(c, if i + 1 < |src| then src[i + 1] else ' ');
      if i + 1 < |src| && MatchTwoCharOp(c, src[i + 1]) != Error {
        assert src[i..i + 2] == [c, src[i + 1]];
        SpellingKinds(MatchTwoCharOp(c, src[i + 1]));
      } else if MatchSingleCharOp(c) != Error {
        assert src[i..i + 1] == [c];
        SpellingKinds(MatchSingleCharOp(c));
      }
    }
  }

  lemma NoLiteralOperator(c: char, next: char)
    ensures var t := MatchTwoCharOp(c, next); t != EndOfInput && t != String
    ensures var t := MatchSingleCharOp(c); t != EndOfInput && t != String
  {
  }

  lemma QuotedSound(src: string, i: nat)
    requires i < |src| && src[i] == '\''
    ensures var r := ScanToken(src, i);
      && src[i..r.end] == Spell(r.lex) && r.lex.kind != EndOfInput
      && (r.lex.kind != Error ==> ValidLexeme(r.lex))
  {
    hide Span, ScanHex, ScanDecimal, MatchTwoCharOp, MatchSingleCharOp;
  }

  lemma NameSound(src: string, i: nat)
    requires i < |src| && IsIdentStart(src[i]) && !IsDigit(src[i]) && src[i] != '\''
    ensures var r := ScanToken(src, i);
      src[i..r.end] == Spell(r.lex) && r.lex.kind != EndOfInput && ValidLexeme(r.lex)
  {
    hide Span, ScanHex, ScanDecimal, MatchTwoCharOp, MatchSingleCharOp, RealForm, Digits, HexText, Spelling;
  }

  // ---------------------------------------------------------------- where tokens end

  lemma DecimalStops(src: string, i: nat)
    requires i < |src| && IsDigit(src[i]) && !ScanDecimal(src, i).hasError
    ensures EndsDecimal(src, ScanDecimal(src, i).end)
    ensures var n := ScanDecimal(src, i); !n.isReal && Next(src, n.end) == '.' ==> Next(src, n.end + 1) == '.'
  {
    hide Span;
  }

  lemma HexStops(src: string, i: nat)
    requires i < |src| && IsHexAt(src, i) && !ScanHex(src, i).hasError
    ensures !WordChar(Next(src, ScanHex(src, i).end)) && Next(src, ScanHex(src, i).end) != '.'
  {
    hide Span;
  }

  lemma NotBoth(text: string)
    requires Digits(text)
    ensures !HexText(text)
  {
  }

  lemma NumberStops(src: string, i: nat)
    requires i < |src| && IsDigit(src[i]) && ScanToken(src, i).lex.kind != Error
    ensures var r := ScanToken(src, i); Ends(r.lex, src, r.end)
  {
    hide Span, ScanHex, ScanDecimal, RealForm, Digits, HexText, Next, EndsDecimal, WordChar;
    if IsHexAt(src, i) {
      HexStops(src, i);
      HexSound(src, i);
      HexIsInteger(src, i);
    } else {
      DecimalStops(src, i);
      DecimalSound(src, i);
      if !ScanDecimal(src, i).isReal {
        NotBoth(src[i..ScanDecimal(src, i).end]);
      }
    }
  }

  lemma NameStops(src: string, i: nat)
    requires i < |src| && IsIdentStart(src[i]) && !IsDigit(src[i]) && src[i] != '\''
    ensures var r := ScanToken(src, i); Ends(r.lex, src, r.end)
  {
    hide Span, ScanHex, ScanDecimal, MatchTwoCharOp, MatchSingleCharOp, RealForm, Digits, HexText, Spelling;
  }

  lemma OperatorStops(src: string, i: nat)
    requires i < |src| && !IsSpace(src[i]) && !IsDigit(src[i]) && !IsIdentStart(src[i]) && src[i] != '\''
    requires ScanToken(src, i).lex.kind != Error
    ensures var r := ScanToken(src, i); Ends(r.lex, src, r.end)
  {
    hide ScanToken, MatchTwoCharOp, MatchSingleCharOp, Digits, HexText, Spelling, IsDigit, IsIdentStart, IsSpace;
    hide EndsDecimal, WordChar;
    var r := ScanToken(src, i);
    var c := src[i];
    OperatorToken(src, i);
    OperatorKinds(c, Next(src, i + 1));
    if |r.lex.text| == 1 {
      forall u ensures Spelling(u) != [c, Next(src, i + 1)] {
        if Spelling(u) == [c, Next(src, i + 1)] {
          SpellingMatches(u);
          TwoNeedsOne(u);
        }
      }
      assert r.lex.text + [Next(src, i + 1)] == [c, Next(src, i + 1)];
    }
  }

  lemma OperatorToken(src: string, i: nat)
    requires i < |src| && !IsSpace(src[i]) && !IsDigit(src[i]) && !IsIdentStart(src[i]) && src[i] != '\''
    ensures var two := if i + 1 < |src| then MatchTwoCharOp(src[i], src[i + 1]) else Error;
      ScanToken(src, i) == if two != Error then Scanned(Lexeme(two, [src[i], src[i + 1]]), i + 2)
                           else Scanned(Lexeme(MatchSingleCharOp(src[i]), [src[i]]), i + 1)
  {
    hide Span, ScanHex, ScanDecimal, MatchTwoCharOp, MatchSingleCharOp, IsDigit, IsIdentStart, IsSpace;
    assert src[i..i + 1] == [src[i]];
    if i + 1 < |src| {
      assert src[i..i + 2] == [src[i], src[i + 1]];
    }
  }

  /** No operator of two characters ends in a space. */
  lemma TwoNeedsOne(u: TokenType)
    requires |Spelling(u)| == 2
    ensures Spelling(u)[1] != ' ' && u != Error
  {
  }

  lemma OperatorKinds(c: char, next: char)
    ensures var t := MatchTwoCharOp(c, next);
      t != Integer && t != Real && t != Boolean && t != Identifier && t != String
    ensures var t := MatchSingleCharOp(c);
      t != Integer && t != Real && t != Boolean && t != Identifier && t != String
  {
  }

  /** A token that is not an Error ends where its lexeme may end. */
  lemma ScanStops(src: string, i: nat)
    requires i < |src| && !IsSpace(src[i]) && ScanToken(src, i).lex.kind != Error
    ensures var r := ScanToken(src, i); Ends(r.lex, src, r.end)
  {
    hide ScanToken, Ends, IsDigit, IsIdentStart, IsSpace;
    var c := src[i];
    if c == '\'' {
      StringStops(src, i);
    } else if IsDigit(c) {
      NumberStops(src, i);
    } else if IsIdentStart(c) {
      NameStops(src, i);
    } else {
      OperatorStops(src, i);
    }
  }

  lemma StringStops(src: string, i: nat)
    requires i < |src| && src[i] == '\'' && ScanToken(src, i).lex.kind != Error
    ensures var r := ScanToken(src, i); Ends(r.lex, src, r.end)
  {
    hide Span, ScanHex, ScanDecimal, MatchTwoCharOp, MatchSingleCharOp, Spelling;
  }

  /** One token is found exactly if a lexeme stands there that ends where it may; otherwise, and only
      then, there is an Error. */
  lemma ScanExactly(src: string, i: nat, l: Lexeme, e: nat)
    requires i < |src| && !IsSpace(src[i])
    ensures Lexes(src, i, l, e) <==> l.kind != Error && ScanToken(src, i) == Scanned(l, e)
  {
    hide ScanToken, Ends, ValidLexeme, IsSpace, Spell;
    if Lexes(src, i, l, e) {
      NoErrorLexeme(l);
      Recognised(src, i, l);
    }
    if l.kind != Error && ScanToken(src, i) == Scanned(l, e) {
      ScanSound(src, i);
      ScanStops(src, i);
      assert |src[i..e]| == e - i;
    }
  }

  lemma NoErrorLexeme(l: Lexeme)
    requires ValidLexeme(l)
    ensures l.kind != Error && l.kind != EndOfInput
  {
    hide Digits, RealForm, HexText, IdentifierText;
  }

  // ---------------------------------------------------------------- whole scripts

  /** toks account for src from i on: whitespace, then a token spelled where it says it is, and
      so on; after the last of them only whitespace, and one EndOfInput at the end. */
  ghost predicate Covers(src: string, i: nat, toks: seq<Token>)
    requires i <= |src|
    decreases |toks|
  {
    && toks != [] && i <= toks[0].pos <= |src|
    && (forall k :: i <= k < toks[0].pos ==> IsSpace(src[k]))
    && if toks[0].lex.kind == EndOfInput then toks == [Token(Lexeme(EndOfInput, ""), |src|)]
       else
         var end := toks[0].pos + |Spell(toks[0].lex)|;
         && toks[0].pos < end <= |src| && !IsSpace(src[toks[0].pos])
         && src[toks[0].pos..end] == Spell(toks[0].lex)
         && Covers(src, end, toks[1..])
  }

  lemma CoversMore(src: string, i: nat)
    requires i < |src| && !IsSpace(src[i])
    requires var r := ScanToken(src, i);
      r.lex.kind != EndOfInput && src[i..r.end] == Spell(r.lex) && Covers(src, r.end, Tokenize(src, r.end))
    ensures Covers(src, i, Tokenize(src, i))
  {
    hide ScanToken, Spell;
    var r := ScanToken(src, i);
    assert Tokenize(src, i) == [Token(r.lex, i)] + Tokenize(src, r.end);
    assert Tokenize(src, i)[1..] == Tokenize(src, r.end);
  }

  lemma {:induction false} TokensCover(src: string, i: nat)
    requires i <= |src|
    ensures Covers(src, i, Tokenize(src, i))
    ensures forall t :: t in Tokenize(src, i) && t.lex.kind != EndOfInput && t.lex.kind != Error ==> ValidLexeme(t.lex)
    decreases |src| - i
  {
    hide ScanToken, ValidLexeme, Spell;
    if i < |src| {
      if IsSpace(src[i]) {
        TokensCover(src, i + 1);
      } else {
        ScanSound(src, i);
        TokensCover(src, ScanToken(src, i).end);
        CoversMore(src, i);
      }
    }
  }

  /** The one EndOfInput is the last token, as the parser needs it to be. */
  lemma {:induction false} TokensTerminated(src: string, i: nat)
    requires i <= |src|
    ensures var toks := Tokenize(src, i);
      && toks != [] && toks[|toks| - 1].lex.kind == EndOfInput
      && forall k :: 0 <= k < |toks| - 1 ==> toks[k].lex.kind != EndOfInput
    decreases |src| - i
  {
    hide ScanToken, ValidLexeme;
    if i < |src| {
      if IsSpace(src[i]) {
        TokensTerminated(src, i + 1);
      } else {
        ScanSound(src, i);
        TokensTerminated(src, ScanToken(src, i).end);
      }
    }
  }

  /** Lexemes written out with a space after each. */
  function Render(ls: seq<Lexeme>): string {
    if ls == [] then "" else Spell(ls[0]) + " " + Render(ls[1..])
  }

  /** Any lexeme may end at a space. */
  lemma SpaceEnds(src: string, e: nat, l: Lexeme)
    requires Next(src, e) == ' '
    ensures Ends(l, src, e)
  {
    NoSpaceInside();
    if |l.text| == 1 {
      assert l.text + [Next(src, e)] == [l.text[0], ' '];
    }
  }

  lemma NoSpaceInside()
    ensures forall u, c :: Spelling(u) != [c, ' ']
  {
  }

  /** Tokenizing undoes rendering: same kinds, same texts, in the same order. */
  lemma {:induction false} TokenizeRender(ls: seq<Lexeme>, src: string, i: nat)
    requires forall l :: l in ls ==> ValidLexeme(l)
    requires i <= |src| && src[i..] == Render(ls)
    ensures var toks := Tokenize(src, i);
      && |toks| == |ls| + 1 && toks[|ls|] == Token(Lexeme(EndOfInput, ""), |src|)
      && forall k :: 0 <= k < |ls| ==> toks[k].lex == ls[k]
    decreases |ls|
  {
    hide ScanToken, ValidLexeme, Spell, Tokenize, Lexes;
    if ls != [] {
      var j := i + |Spell(ls[0])|;
      FirstRendered(ls, src, i);
      Recognised(src, i, ls[0]);
      TokenizeRender(ls[1..], src, j + 1);
      TokenThenSpace(src, i);
    } else {
      EndReached(src);
    }
  }

  lemma EndReached(src: string)
    ensures Tokenize(src, |src|) == [Token(Lexeme(EndOfInput, ""), |src|)]
  {
  }

  lemma FirstRendered(ls: seq<Lexeme>, src: string, i: nat)
    requires ls != [] && ValidLexeme(ls[0]) && i <= |src| && src[i..] == Render(ls)
    ensures var j := i + |Spell(ls[0])|;
      && j < |src| && src[j] == ' ' && src[j + 1..] == Render(ls[1..]) && Lexes(src, i, ls[0], j)
  {
    hide ValidLexeme, Spell, Ends;
    var text := Spell(ls[0]);
    var j := i + |text|;
    assert src[i..j] == src[i..][..|text|] == text;
    assert src[j] == src[i..][|text|] == ' ';
    assert src[j + 1..] == src[i..][|text| + 1..] == Render(ls[1..]);
    SpaceEnds(src, j, ls[0]);
  }

  lemma TokenThenSpace(src: string, i: nat)
    requires i < |src| && !IsSpace(src[i])
    requires var e := ScanToken(src, i).end; e < |src| && src[e] == ' '
    ensures var t := ScanToken(src, i); Tokenize(src, i) == [Token(t.lex, i)] + Tokenize(src, t.end + 1)
  {
    hide ScanToken;
  }
}
