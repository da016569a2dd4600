/** ScriptParser (script_parser.cpp): a Pratt parser over a token list. The functions say
    what each parse method returns; class Parser has the methods themselves. */
module ScriptParser {
  import opened ScriptTokens

  datatype UnaryOp = Negate | Complement | LogicalNot

  datatype BinaryOp =
    | Add | Subtract | Times | Div | Concat
    | BitAnd | BitOr | BitXor
    | LogicAnd | LogicOr

  datatype CompareOp = IsEqual | NotEqual | IsLess | IsGreater | LessOrEqual | GreaterOrEqual

  datatype AssignOp = Create | Existing | AddTo | SubtractFrom | MultiplyBy | DivideBy

  /** The texts of real literals that convert to a double. The conversion comes from outside, so
      any set can be given; a text outside it is out of range, as 1e999 is. */
  type Numerals = iset<string>

  /** The value of a literal node. A real literal keeps its text: which number it converts to is
      not modelled, but whether it converts is. */
  datatype Literal = BoolValue(b: bool) | IntValue(n: int) | RealText(r: string) | StringValue(s: string)

  /** The expression tree (operators.hpp). */
  datatype Expr =
    | ExprLiteral(value: Literal)
    | ExprName(name: string)
    | ExprUnary(uop: UnaryOp, rhs: Expr)
    | ExprBinary(left: Expr, bop: BinaryOp, right: Expr)
    | ExprComparison(operands: seq<Expr>, ops: seq<CompareOp>)
    | ExprIf(condition: Expr, thenExpr: Expr, elseExpr: Expr)
    | ExprAssignment(target: Expr, aop: AssignOp, source: Expr)

  datatype ParseError =
    | InvalidToken(at: nat)
    | NoConversion(text: string)
    | ExpectedOperand(at: nat)
    | ExpectedRightParen(at: nat)
    | ExpectedColon(at: nat)

  datatype Result<+T> = Ok(value: T) | Err(error: ParseError) {
    predicate IsFailure() { Err? }
    function PropagateFailure<U>(): Result<U>
      requires Err?
    {
      Err(error)
    }
    function Extract(): T
      requires Ok?
    {
      value
    }
  }

  /** A parsed value and the index of the first token after it. */
  datatype Parsed<+T> = Parsed(tree: T, next: nat)

  const ASSIGNMENT_BP := 2
  const TERNARY_BP := 4
  const COMPARISON_BP := 10
  const MUL_DIV_BP := 18
  const PREFIX_BP := 20

  /** The left binding power of an infix operator, -1 for any other token. */
  function LeftBP(t: TokenType): int {
    match t
    case ColonEqual | Equal | PlusEqual | MinusEqual | StarEqual | SlashEqual => ASSIGNMENT_BP
    case Question => TERNARY_BP
    case PipePipe => 6
    case AmpAmp => 8
    case EqualEqual | BangEqual | Less | Greater | LessEqual | GreaterEqual => COMPARISON_BP
    case Pipe | Caret => 12
    case Ampersand => 14
    case Plus | Minus | DotDot => 16
    case Star | Slash => MUL_DIV_BP
    case _ => -1
  }

  predicate IsComparison(t: TokenType) {
    match t
    case EqualEqual | BangEqual | Less | Greater | LessEqual | GreaterEqual => true
    case _ => false
  }

  predicate IsAssignment(t: TokenType) {
    match t
    case ColonEqual | Equal | PlusEqual | MinusEqual | StarEqual | SlashEqual => true
    case _ => false
  }

  predicate IsPrefix(t: TokenType) {
    match t
    case Minus | Tilde | Bang => true
    case _ => false
  }

  /** The regular, left-associative binary operators: those makeBinary accepts. */
  predicate IsBinary(t: TokenType) {
    match t
    case Plus | Minus | Star | Slash | DotDot | Ampersand | Pipe | Caret | AmpAmp | PipePipe => true
    case _ => false
  }

  predicate IsOperand(t: TokenType) {
    match t
    case Boolean | Integer | Real | String | Identifier => true
    case _ => false
  }

  function PrefixOp(t: TokenType): UnaryOp
    requires IsPrefix(t)
  {
    match t
    case Minus => Negate
    case Tilde => Complement
    case Bang => LogicalNot
  }

  function AssignmentOp(t: TokenType): AssignOp
    requires IsAssignment(t)
  {
    match t
    case ColonEqual => Create
    case Equal => Existing
    case PlusEqual => AddTo
    case MinusEqual => SubtractFrom
    case StarEqual => MultiplyBy
    case SlashEqual => DivideBy
  }

  function ComparisonOp(t: TokenType): CompareOp
    requires IsComparison(t)
  {
    match t
    case EqualEqual => IsEqual
    case BangEqual => NotEqual
    case Less => IsLess
    case Greater => IsGreater
    case LessEqual => LessOrEqual
    case GreaterEqual => GreaterOrEqual
  }

  function InfixOp(t: TokenType): BinaryOp
    requires IsBinary(t)
  {
    match t
    case Plus => Add
    case Minus => Subtract
    case Star => Times
    case Slash => Div
    case DotDot => Concat
    case Ampersand => BitAnd
    case Pipe => BitOr
    case Caret => BitXor
    case AmpAmp => LogicAnd
    case PipePipe => LogicOr
  }

  function DigitValue(c: char): (d: nat)
    ensures d <= 16
  {
    if '0' <= c <= '9' then c as int - '0' as int
    else if 'a' <= c <= 'f' then c as int - 'a' as int + 10
    else if 'A' <= c <= 'F' then c as int - 'A' as int + 10
    else 16
  }

  /** The number that the longest prefix of base-digits of text denotes. */
  function DigitsValue(text: string, base: nat, acc: nat): nat {
    if text == "" || DigitValue(text[0]) >= base then acc
    else DigitsValue(text[1..], base, acc * base + DigitValue(text[0]))
  }

  const INT64_MAX := 0x7fff_ffff_ffff_ffff

  /** std::from_chars into a variable that holds 0: a value out of range leaves it alone. */
  function FromChars(text: string, base: nat): int {
    var n := DigitsValue(text, base, 0);
    if n <= INT64_MAX then n else 0
  }

  function IntegerValue(text: string): int {
    if |text| > 2 && text[0] == '0' && (text[1] == 'x' || text[1] == 'X') then
      FromChars(text[2..], 16)
    else
      FromChars(text, 10)
  }

  /** The tree of a token that is an operand by itself. */
  function OperandExpr(l: Lexeme): Expr
    requires IsOperand(l.kind)
  {
    match l.kind
    case Boolean => ExprLiteral(BoolValue(l.text == "true"))
    case Integer => ExprLiteral(IntValue(IntegerValue(l.text)))
    case Real => ExprLiteral(RealText(l.text))
    case String => ExprLiteral(StringValue(l.text))
    case Identifier => ExprName(l.text)
  }

  /** parsePrefix on such a token: a real literal out of range is an error. */
  function ParseOperand(reals: Numerals, toks: Tokens, i: nat): (r: Result<Parsed<Expr>>)
    requires i < |toks| && IsOperand(toks[i].lex.kind)
    ensures r.Ok? ==> i < r.value.next < |toks|
  {
    var l := toks[i].lex;
    if l.kind == Real && l.text !in reals then Err(NoConversion(l.text))
    else Ok(Parsed(OperandExpr(l), i + 1))
  }

  /** All real literals of a tree convert. */
  predicate Converts(reals: Numerals, e: Expr) {
    match e
    case ExprLiteral(v) => v.RealText? ==> v.r in reals
    case ExprName(_) => true
    case ExprUnary(_, rhs) => Converts(reals, rhs)
    case ExprBinary(l, _, r) => Converts(reals, l) && Converts(reals, r)
    case ExprComparison(operands, _) => forall k :: 0 <= k < |operands| ==> Converts(reals, operands[k])
    case ExprIf(c, t, f) => Converts(reals, c) && Converts(reals, t) && Converts(reals, f)
    case ExprAssignment(t, _, s) => Converts(reals, t) && Converts(reals, s)
  }

  predicate AllConvert(reals: Numerals, es: seq<Expr>) {
    forall k :: 0 <= k < |es| ==> Converts(reals, es[k])
  }

  /** What tokenize promises: one EndOfInput, and it is the last token. */
  ghost predicate Terminated(toks: seq<Token>) {
    && toks != []
    && toks[|toks| - 1].lex.kind == EndOfInput
    && forall i :: 0 <= i < |toks| - 1 ==> toks[i].lex.kind != EndOfInput
  }

  type Tokens = toks: seq<Token> | Terminated(toks) witness [Token(Lexeme(EndOfInput, ""), 0)]

  function ParsePrefix(reals: Numerals, toks: Tokens, i: nat): (r: Result<Parsed<Expr>>)
    requires i < |toks|
    ensures r.Ok? ==> i < r.value.next < |toks|
    decreases |toks| - i, 0
  {
    var tok := toks[i];
    if IsPrefix(tok.lex.kind) then
      var operand :- ParseExpr(reals, toks, i + 1, PREFIX_BP);
      Ok(Parsed(ExprUnary(PrefixOp(tok.lex.kind), operand.tree), operand.next))
    else if tok.lex.kind == LeftParen then
      var inner :- ParseExpr(reals, toks, i + 1, 0);
      if toks[inner.next].lex.kind != RightParen then Err(ExpectedRightParen(toks[inner.next].pos))
      else Ok(Parsed(inner.tree, inner.next + 1))
    else if IsOperand(tok.lex.kind) then
      ParseOperand(reals, toks, i)
    else if tok.lex.kind == Error then
      Err(InvalidToken(tok.pos))
    else
      Err(ExpectedOperand(tok.pos))
  }

  function ParseExpr(reals: Numerals, toks: Tokens, i: nat, minBP: int): (r: Result<Parsed<Expr>>)
    requires i < |toks|
    ensures r.Ok? ==> i < r.value.next < |toks|
    decreases |toks| - i, 1
  {
    var first :- ParsePrefix(reals, toks, i);
    ParseInfix(reals, toks, first.next, first.tree, minBP)
  }

  /** The loop of parseExpr, entered with the tree built so far. */
  function ParseInfix(reals: Numerals, toks: Tokens, i: nat, left: Expr, minBP: int): (r: Result<Parsed<Expr>>)
    requires i < |toks|
    ensures r.Ok? ==> i <= r.value.next < |toks|
    decreases |toks| - i, 2
  {
    var t := toks[i].lex.kind;
    var lbp := LeftBP(t);
    if lbp < 0 || lbp < minBP then
      Ok(Parsed(left, i))
    else if IsAssignment(t) then
      var right :- ParseExpr(reals, toks, i + 1, 0);
      Ok(Parsed(ExprAssignment(left, AssignmentOp(t), right.tree), right.next))
    else if t == Question then
      var thenExpr :- ParseExpr(reals, toks, i + 1, 0);
      if toks[thenExpr.next].lex.kind != Colon then Err(ExpectedColon(toks[thenExpr.next].pos))
      else
        var elseExpr :- ParseExpr(reals, toks, thenExpr.next + 1, TERNARY_BP);
        Ok(Parsed(ExprIf(left, thenExpr.tree, elseExpr.tree), elseExpr.next))
    else if IsComparison(t) then
      var chain :- ParseChain(reals, toks, i, [left], []);
      ParseInfix(reals, toks, chain.next, chain.tree, minBP)
    else
      var right :- ParseExpr(reals, toks, i + 1, lbp + 1);
      ParseInfix(reals, toks, right.next, ExprBinary(left, InfixOp(t), right.tree), minBP)
  }

  /** The loop of parseChainedComparison. */
  function ParseChain(reals: Numerals, toks: Tokens, i: nat, operands: seq<Expr>,
          ops: seq<CompareOp>): (r: Result<Parsed<Expr>>)
    requires i < |toks|
    ensures r.Ok? ==> i <= r.value.next < |toks|
    ensures r.Ok? && IsComparison(toks[i].lex.kind) ==> i < r.value.next
    decreases |toks| - i, 1
  {
    var t := toks[i].lex.kind;
    if !IsComparison(t) then Ok(Parsed(ExprComparison(operands, ops), i))
    else
      var operand :- ParseExpr(reals, toks, i + 1, COMPARISON_BP + 1);
      ParseChain(reals, toks, operand.next, operands + [operand.tree], ops + [ComparisonOp(t)])
  }

  /** Semicolons between statements are optional and may repeat. */
  function SkipSemicolons(toks: Tokens, i: nat): (j: nat)
    requires i < |toks|
    ensures i <= j < |toks|
    decreases |toks| - i
  {
    if toks[i].lex.kind == Semicolon then SkipSemicolons(toks, i + 1) else i
  }

  function ParseAll(reals: Numerals, toks: Tokens, i: nat): Result<seq<Expr>>
    requires i < |toks|
    decreases |toks| - i
  {
    if toks[i].lex.kind == EndOfInput then Ok([])
    else
      var stmt :- ParseExpr(reals, toks, i, 0);
      Prepend([stmt.tree], ParseAll(reals, toks, SkipSemicolons(toks, stmt.next)))
  }

  /** The statements already parsed, then those still to come. */
  function Prepend(stmts: seq<Expr>, rest: Result<seq<Expr>>): Result<seq<Expr>> {
    if rest.Ok? then Ok(stmts + rest.value) else rest
  }

  lemma PrependTwice(a: seq<Expr>, b: seq<Expr>, rest: Result<seq<Expr>>)
    ensures Prepend(a, Prepend(b, rest)) == Prepend(a + b, rest)
    ensures Prepend([], rest) == rest
  {
    if rest.Ok? {
      assert a + (b + rest.value) == a + b + rest.value;
      assert [] + rest.value == rest.value;
    }
  }

  /** The parser object: the tokens and the index of the current one. A failed call throws in
      the source, so nothing is said of the index then. */
  class Parser {
    const reals: Numerals
    const tokens: Tokens
    var current: nat

    predicate Valid()
      reads this
    {
      current < |tokens|
    }

    constructor (reals: Numerals, tokens: Tokens)
      ensures this.reals == reals && this.tokens == tokens && current == 0 && Valid()
    {
      this.reals := reals;
      this.tokens := tokens;
      current := 0;
    }

    /** What a successful or failed call leaves behind, given what its specification says. */
    predicate Returns(r: Result<Expr>, spec: Result<Parsed<Expr>>)
      reads this
    {
      && Valid()
      && (spec.Ok? ==> r == Ok(spec.value.tree) && current == spec.value.next)
      && (spec.Err? ==> r == Err(spec.error))
    }

    function Peek(): TokenType
      requires Valid()
      reads this
    {
      tokens[current].lex.kind
    }

    /** Steps over the current token, but never past EndOfInput. */
    method Advance() returns (t: Token)
      requires Valid()
      modifies this
      ensures Valid() && t == tokens[old(current)]
      ensures current == if t.lex.kind == EndOfInput then old(current) else old(current) + 1
    {
      t := tokens[current];
      if t.lex.kind != EndOfInput {
        current := current + 1;
      }
    }

    method ParsePrefixHere() returns (r: Result<Expr>)
      requires Valid()
      modifies this
      ensures Returns(r, ParsePrefix(reals, tokens, old(current)))
      decreases |tokens| - current, 0
    {
      var tok := tokens[current];
      if IsPrefix(tok.lex.kind) {
        var _ := Advance();
        var operand :- ParseExprHere(PREFIX_BP);
        return Ok(ExprUnary(PrefixOp(tok.lex.kind), operand));
      }
      if tok.lex.kind == LeftParen {
        var _ := Advance();
        var inner :- ParseExprHere(0);
        if Peek() != RightParen {
          return Err(ExpectedRightParen(tokens[current].pos));
        }
        var _ := Advance();
        return Ok(inner);
      }
      if IsOperand(tok.lex.kind) {
        var _ := Advance();
        if tok.lex.kind == Real && tok.lex.text !in reals {
          return Err(NoConversion(tok.lex.text));
        }
        return Ok(OperandExpr(tok.lex));
      }
      if tok.lex.kind == Error {
        return Err(InvalidToken(tok.pos));
      }
      return Err(ExpectedOperand(tok.pos));
    }

    method ParseExprHere(minBP: int) returns (r: Result<Expr>)
      requires Valid()
      modifies this
      ensures Returns(r, ParseExpr(reals, tokens, old(current), minBP))
      decreases |tokens| - current, 1
    {
      var left :- ParsePrefixHere();
      while true
        invariant Valid() && old(current) < current
        invariant ParseExpr(reals, tokens, old(current), minBP) == ParseInfix(reals, tokens, current, left, minBP)
        decreases |tokens| - current
      {
        var t := Peek();
        var lbp := LeftBP(t);
        if lbp < 0 || lbp < minBP {
          break;
        }
        if IsAssignment(t) {
          left :- ParseAssignmentHere(left);
          return Ok(left);
        }
        if t == Question {
          left :- ParseTernaryHere(left);
          return Ok(left);
        }
        if IsComparison(t) {
          left :- ParseChainHere(left);
          continue;
        }
        var op := Advance();
        var right :- ParseExprHere(lbp + 1);
        left := ExprBinary(left, InfixOp(op.lex.kind), right);
      }
      return Ok(left);
    }

    method ParseAssignmentHere(left: Expr) returns (r: Result<Expr>)
      requires Valid() && IsAssignment(Peek())
      modifies this
      ensures Returns(r, ParseInfix(reals, tokens, old(current), left, 0))
      decreases |tokens| - current, 2
    {
      var op := Advance();
      var right :- ParseExprHere(0);
      return Ok(ExprAssignment(left, AssignmentOp(op.lex.kind), right));
    }

    method ParseTernaryHere(condition: Expr) returns (r: Result<Expr>)
      requires Valid() && Peek() == Question
      modifies this
      ensures Returns(r, ParseInfix(reals, tokens, old(current), condition, 0))
      decreases |tokens| - current, 2
    {
      var _ := Advance();
      var thenExpr :- ParseExprHere(0);
      if Peek() != Colon {
        return Err(ExpectedColon(tokens[current].pos));
      }
      var _ := Advance();
      var elseExpr :- ParseExprHere(TERNARY_BP);
      return Ok(ExprIf(condition, thenExpr, elseExpr));
    }

    method ParseChainHere(first: Expr) returns (r: Result<Expr>)
      requires Valid() && IsComparison(Peek())
      modifies this
      ensures Returns(r, ParseChain(reals, tokens, old(current), [first], []))
      ensures r.Ok? ==> old(current) < current
      decreases |tokens| - current, 2
    {
      var operands, ops := [first], [];
      while IsComparison(Peek())
        invariant Valid() && old(current) <= current
        invariant current == old(current) ==> IsComparison(Peek())
        invariant ParseChain(reals, tokens, old(current), [first], [])
          == ParseChain(reals, tokens, current, operands, ops)
        decreases |tokens| - current
      {
        var op := Advance();
        ops := ops + [ComparisonOp(op.lex.kind)];
        var operand :- ParseExprHere(COMPARISON_BP + 1);
        operands := operands + [operand];
      }
      return Ok(ExprComparison(operands, ops));
    }

    method ParseStatements() returns (r: Result<seq<Expr>>)
      requires Valid()
      modifies this
      ensures r == ParseAll(reals, tokens, old(current))
      ensures r.Ok? ==> current == |tokens| - 1
    {
      var stmts: seq<Expr> := [];
      PrependTwice([], [], ParseAll(reals, tokens, current));
      while Peek() != EndOfInput
        invariant Valid()
        invariant ParseAll(reals, tokens, old(current)) == Prepend(stmts, ParseAll(reals, tokens, current))
        decreases |tokens| - current
      {
        ghost var done := stmts;
        var stmt :- ParseExprHere(0);
        PrependTwice(done, [stmt], ParseAll(reals, tokens, SkipSemicolons(tokens, current)));
        stmts := stmts + [stmt];
        ghost var skipTo := SkipSemicolons(tokens, current);
        while Peek() == Semicolon
          invariant Valid() && SkipSemicolons(tokens, current) == skipTo
          invariant current <= skipTo
          decreases |tokens| - current
        {
          var _ := Advance();
        }
      }
      assert stmts + [] == stmts;
      return Ok(stmts);
    }
  }
}
