/** What the operators and numbers of a script look like and what they stand for, from the text to the
    tree. */
module ScriptSpelling {
  import opened NumberText
  import opened ScriptTokens
  import opened ScriptTokenizer
  import opened ScriptLexemes
  import opened ScriptParser
  import opened ScriptGrammar
  import opened ScriptPrinter

  lemma CharacterClasses(c: char)
    ensures IsSpace(c) <==> c in " \t\n\r"
    ensures IsDigit(c) <==> c in "0123456789"
    ensures IsHexDigit(c) <==> c in "0123456789abcdefABCDEF"
    ensures IsIdentStart(c) <==> 65 <= c as int <= 90 || 97 <= c as int <= 122 || c == '_' || c == '@'
    ensures IsIdentChar(c) <==> (IsIdentStart(c) && c != '@') || IsDigit(c)
  {
  }

  // ---------------------------------------------------------------- operators

  function UnaryText(op: UnaryOp): string {
    match op
    case Negate => "-"
    case Complement => "~"
    case LogicalNot => "!"
  }

  function BinaryText(op: BinaryOp): string {
    match op
    case Add => "+"
    case Subtract => "-"
    case Times => "*"
    case Div => "/"
    case Concat => ".."
    case BitAnd => "&"
    case BitOr => "|"
    case BitXor => "^"
    case LogicAnd => "&&"
    case LogicOr => "||"
  }

  function CompareText(op: CompareOp): string {
    match op
    case IsEqual => "=="
    case NotEqual => "!="
    case IsLess => "<"
    case IsGreater => ">"
    case LessOrEqual => "<="
    case GreaterOrEqual => ">="
  }

  function AssignText(op: AssignOp): string {
    match op
    case Create => ":="
    case Existing => "="
    case AddTo => "+="
    case SubtractFrom => "-="
    case MultiplyBy => "*="
    case DivideBy => "/="
  }

  /** A token that is spelled like an operator is parsed as that operator. */
  lemma BinaryByText(t: TokenType, op: BinaryOp)
    requires Spelling(t) == BinaryText(op)
    ensures IsBinary(t) && InfixOp(t) == op
  {
  }

  lemma UnaryByText(t: TokenType, op: UnaryOp)
    requires Spelling(t) == UnaryText(op)
    ensures IsPrefix(t) && PrefixOp(t) == op
  {
  }

  lemma CompareByText(t: TokenType, op: CompareOp)
    requires Spelling(t) == CompareText(op)
    ensures IsComparison(t) && ComparisonOp(t) == op
  {
  }

  lemma AssignByText(t: TokenType, op: AssignOp)
    requires Spelling(t) == AssignText(op)
    ensures IsAssignment(t) && AssignmentOp(t) == op
  {
  }

  /** The text of an operator, where it may end, is scanned and then parsed as that operator. */
  lemma OperatorsRead(src: string, i: nat, op: BinaryOp)
    requires i < |src| && Spelled(src, i, BinaryText(op))
    requires |BinaryText(op)| == 1 ==> Next(src, i + 1) !in "&|=."
    ensures !IsSpace(src[i])
    ensures var l := ScanToken(src, i).lex; IsBinary(l.kind) && InfixOp(l.kind) == op && l.text == BinaryText(op)
  {
    hide ScanToken, IsSpace, InfixOp, IsBinary;
    var t := TokenOf(op);
    var l := Lexeme(t, BinaryText(op));
    OperatorLexes(src, i, op, t);
    Recognised(src, i, l);
    BinaryByText(t, op);
  }

  lemma TokenOf(op: BinaryOp) returns (t: TokenType)
    ensures Spelling(t) == BinaryText(op) && t == BinaryToken(op)
  {
    t := BinaryToken(op);
  }

  lemma OperatorLexes(src: string, i: nat, op: BinaryOp, t: TokenType)
    requires i < |src| && Spelled(src, i, BinaryText(op)) && t == BinaryToken(op) && Spelling(t) == BinaryText(op)
    requires |BinaryText(op)| == 1 ==> Next(src, i + 1) !in "&|=."
    ensures var l := Lexeme(t, BinaryText(op)); Spell(l) == BinaryText(op) && Lexes(src, i, l, i + |BinaryText(op)|)
  {
    var l := Lexeme(t, BinaryText(op));
    SpellingKinds(t);
    hide Digits, RealForm, HexText, IdentifierText;
    if |l.text| == 1 {
      forall u ensures Spelling(u) != l.text + [Next(src, i + 1)] {
        SecondCharacters(u);
      }
    }
  }

  lemma SecondCharacters(u: TokenType)
    ensures |Spelling(u)| == 2 ==> Spelling(u)[1] in "&|=."
  {
  }

  // ---------------------------------------------------------------- numbers

  lemma {:induction false} ValueAppend(s: string, c: char, base: nat, acc: nat)
    requires forall k :: 0 <= k < |s| ==> DigitValue(s[k]) < base
    requires DigitValue(c) < base
    ensures DigitsValue(s + [c], base, acc) == DigitsValue(s, base, acc) * base + DigitValue(c)
    decreases |s|
  {
    if s == "" {
      assert (s + [c])[1..] == "";
    } else {
      assert (s + [c])[1..] == s[1..] + [c];
      ValueAppend(s[1..], c, base, acc * base + DigitValue(s[0]));
    }
  }

  lemma {:induction false} NumeralValue(ds: seq<nat>, upper: bool, base: nat)
    requires base <= 16 && DigitsOf(ds, base)
    ensures DigitsValue(Numeral(ds, upper), base, 0) == Positional(ds, base)
    ensures |Numeral(ds, upper)| == |ds| && forall k :: 0 <= k < |ds| ==>
      Numeral(ds, upper)[k] == DigitChar(ds[k], upper)
    ensures forall k :: 0 <= k < |ds| ==> DigitValue(Numeral(ds, upper)[k]) < base
  {
    if ds != [] {
      hide DigitChar, DigitValue, DigitsValue;
      var front, d := ds[..|ds| - 1], ds[|ds| - 1];
      NumeralValue(front, upper, base);
      DigitCharValue(d, upper);
      ValueAppend(Numeral(front, upper), DigitChar(d, upper), base, 0);
    }
  }

  lemma DigitCharValue(d: nat, upper: bool)
    requires d < 16
    ensures DigitValue(DigitChar(d, upper)) == d
  {
  }

  /** A decimal or hexadecimal literal stands for its number, if that fits into 64 bits with a sign;
      otherwise for 0. */
  lemma IntegerLiteral(ds: seq<nat>, upper: bool)
    requires ds != [] && DigitsOf(ds, 16)
    ensures IntegerValue("0x" + Numeral(ds, upper))
      == if Positional(ds, 16) < 0x8000_0000_0000_0000 then Positional(ds, 16) else 0
    ensures IntegerValue("0X" + Numeral(ds, upper)) == IntegerValue("0x" + Numeral(ds, upper))
    ensures DigitsOf(ds, 10) ==>
      IntegerValue(Numeral(ds, upper)) == (if Positional(ds, 10) < 0x8000_0000_0000_0000 then Positional(ds, 10) else 0)
  {
    hide DigitsValue, Positional;
    var s := Numeral(ds, upper);
    NumeralValue(ds, upper, 16);
    assert ("0x" + s)[2..] == s && ("0X" + s)[2..] == s;
    if DigitsOf(ds, 10) {
      NumeralValue(ds, upper, 10);
      if |ds| > 1 {
        assert s[1] == DigitChar(ds[1], upper);
        DigitCharValue(ds[1], upper);
        assert DigitValue('x') == 16 == DigitValue('X');
      }
    }
  }

  // ---------------------------------------------------------------- operands

  /** An operand, where it may end, stands for what is written: true and false, a string for what is
      between its quotes, a name and a number for themselves. */
  lemma OperandsRead(src: string, i: nat, l: Lexeme, e: nat)
    requires Lexes(src, i, l, e) && IsOperand(l.kind)
    ensures i < e <= |src| && !IsSpace(src[i]) && ScanToken(src, i) == Scanned(l, e)
    ensures src[i..e] == "true" ==> OperandExpr(l) == ExprLiteral(BoolValue(true))
    ensures src[i..e] == "false" ==> OperandExpr(l) == ExprLiteral(BoolValue(false))
    ensures l.kind == String ==> i + 2 <= e && OperandExpr(l) == ExprLiteral(StringValue(src[i + 1..e - 1]))
    ensures l.kind == Identifier ==> OperandExpr(l) == ExprName(src[i..e])
    ensures l.kind == Integer ==> OperandExpr(l) == ExprLiteral(IntValue(IntegerValue(src[i..e])))
    ensures l.kind == Real ==> OperandExpr(l) == ExprLiteral(RealText(src[i..e]))
  {
    hide ScanToken, Spell, IsSpace, IntegerValue, Lexes, OperandExpr, IsOperand;
    Recognised'(src, i, l, e);
    OperandsMean(l);
    if l.kind == String {
      QuotedText(src, i, l, e);
    } else {
      PlainText(src, i, l, e);
    }
  }

  lemma Recognised'(src: string, i: nat, l: Lexeme, e: nat)
    requires Lexes(src, i, l, e)
    ensures i < e <= |src| && !IsSpace(src[i]) && ScanToken(src, i) == Scanned(l, e)
  {
    hide ScanToken, ValidLexeme, Ends, IsSpace, Spell;
    Recognised(src, i, l);
  }

  lemma OperandsMean(l: Lexeme)
    requires IsOperand(l.kind)
    ensures l.kind == Boolean && l.text == "true" ==> OperandExpr(l) == ExprLiteral(BoolValue(true))
    ensures l.kind == Boolean && l.text == "false" ==> OperandExpr(l) == ExprLiteral(BoolValue(false))
    ensures l.kind == String ==> OperandExpr(l) == ExprLiteral(StringValue(l.text))
    ensures l.kind == Identifier ==> OperandExpr(l) == ExprName(l.text)
    ensures l.kind == Integer ==> OperandExpr(l) == ExprLiteral(IntValue(IntegerValue(l.text)))
    ensures l.kind == Real ==> OperandExpr(l) == ExprLiteral(RealText(l.text))
  {
    hide IntegerValue;
  }

  lemma QuotedText(src: string, i: nat, l: Lexeme, e: nat)
    requires Lexes(src, i, l, e) && l.kind == String
    ensures i + 2 <= e <= |src| && src[i + 1..e - 1] == l.text
    ensures src[i..e] != "true" && src[i..e] != "false"
  {
    hide ValidLexeme, Ends;
    var quoted := "'" + l.text + "'";
    assert src[i..e] == quoted;
    assert src[i..e][1..|quoted| - 1] == src[i + 1..e - 1];
    assert quoted[1..|quoted| - 1] == l.text;
    assert src[i..e][0] == quoted[0];
  }

  lemma PlainText(src: string, i: nat, l: Lexeme, e: nat)
    requires Lexes(src, i, l, e) && l.kind != String && IsOperand(l.kind)
    ensures i <= e <= |src| && src[i..e] == l.text
    ensures l.text == "true" || l.text == "false" ==> l.kind == Boolean
  {
    hide ValidLexeme, Ends;
    if l.text == "true" || l.text == "false" {
      WordsAreBoolean(l);
    }
  }

  lemma WordsAreBoolean(l: Lexeme)
    requires ValidLexeme(l) && IsOperand(l.kind) && l.kind != String && (l.text == "true" || l.text == "false")
    ensures l.kind == Boolean
  {
    hide RealForm;
    assert l.text[0] == 't' || l.text[0] == 'f';
    if l.kind == Real {
      RealStarts(l.text);
    }
  }

  lemma RealStarts(text: string)
    requires RealForm(text)
    ensures text != "" && IsDigit(text[0])
  {
    hide Exponent, Fraction;
    var a: nat, b: nat :| a <= |text| && b <= |text| && RealParts(text, a, b);
    assert text[..a][0] == text[0];
  }
}
