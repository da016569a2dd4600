/** Printing expressions with as few parentheses as possible, and the theorem that parsing
    the printed script gives the expressions back. */
module ScriptPrinter {
  import opened ScriptTokens
  import opened ScriptTokenizer
  import opened ScriptLexemes
  import opened ScriptParser
  import opened ScriptGrammar

  function UnaryToken(op: UnaryOp): TokenType {
    match op
    case Negate => Minus
    case Complement => Tilde
    case LogicalNot => Bang
  }

  function BinaryToken(op: BinaryOp): TokenType {
    match op
    case Add => Plus
    case Subtract => Minus
    case Times => Star
    case Div => Slash
    case Concat => DotDot
    case BitAnd => Ampersand
    case BitOr => Pipe
    case BitXor => Caret
    case LogicAnd => AmpAmp
    case LogicOr => PipePipe
  }

  function CompareToken(op: CompareOp): TokenType {
    match op
    case IsEqual => EqualEqual
    case NotEqual => BangEqual
    case IsLess => Less
    case IsGreater => Greater
    case LessOrEqual => LessEqual
    case GreaterOrEqual => GreaterEqual
  }

  function AssignToken(op: AssignOp): TokenType {
    match op
    case Create => ColonEqual
    case Existing => Equal
    case AddTo => PlusEqual
    case SubtractFrom => MinusEqual
    case MultiplyBy => StarEqual
    case DivideBy => SlashEqual
  }

  function Op(t: TokenType): Lexeme {
    Lexeme(t, Spelling(t))
  }

  function Decimal(n: nat): (s: string)
    ensures Digits(s)
  {
    (if n < 10 then "" else Decimal(n / 10)) + [('0' as int + n % 10) as char]
  }

  function LiteralLexeme(v: Literal): Lexeme
    requires v.IntValue? ==> v.n >= 0
  {
    match v
    case BoolValue(b) => Lexeme(Boolean, if b then "true" else "false")
    case IntValue(n) => Lexeme(Integer, Decimal(n))
    case RealText(r) => Lexeme(Real, r)
    case StringValue(s) => Lexeme(String, s)
  }

  /** The trees a script can denote: names and literals that have a lexeme, and comparison
      chains with an operator between any two of at least two operands. */
  predicate Denotable(e: Expr) {
    match e
    case ExprLiteral(v) => (v.IntValue? ==> 0 <= v.n <= INT64_MAX) && ValidLexeme(LiteralLexeme(v))
    case ExprName(n) => ValidLexeme(Lexeme(Identifier, n))
    case ExprUnary(_, rhs) => Denotable(rhs)
    case ExprBinary(l, _, r) => Denotable(l) && Denotable(r)
    case ExprComparison(operands, ops) =>
      && |ops| > 0 && |operands| == |ops| + 1
      && forall k :: 0 <= k < |operands| ==> Denotable(operands[k])
    case ExprIf(c, t, f) => Denotable(c) && Denotable(t) && Denotable(f)
    case ExprAssignment(t, _, s) => Denotable(t) && Denotable(s)
  }

  /** e with no parentheses around it, and with them inside only where they are needed. */
  function Bare(e: Expr): Syntax
    requires Denotable(e)
    decreases e, 1
  {
    match e
    case ExprLiteral(v) => Atom(LiteralLexeme(v))
    case ExprName(n) => Atom(Lexeme(Identifier, n))
    case ExprUnary(op, rhs) => Prefix(Op(UnaryToken(op)), Minimal(rhs, PREFIX_BP))
    case ExprBinary(l, op, r) =>
      var t := BinaryToken(op);
      Infix(Minimal(l, LeftBP(t)), Op(t), Minimal(r, LeftBP(t) + 1))
    case ExprComparison(operands, ops) =>
      Chain(Minimal(operands[0], COMPARISON_BP + 1), BareLinks(e, 0))
    case ExprIf(c, t, f) =>
      Ternary(Minimal(c, TERNARY_BP + 1), Op(Question), Minimal(t, 0), Op(Colon), Minimal(f, TERNARY_BP))
    case ExprAssignment(t, op, s) =>
      Assign(Minimal(t, TERNARY_BP + 1), Op(AssignToken(op)), Minimal(s, 0))
  }

  /** The links of a chain from its k-th operator on. */
  function BareLinks(e: Expr, k: nat): Links
    requires Denotable(e) && e.ExprComparison? && k <= |e.ops|
    decreases e, 0, |e.ops| - k
  {
    if k == |e.ops| then Last
    else Link(Op(CompareToken(e.ops[k])), Minimal(e.operands[k + 1], COMPARISON_BP + 1), BareLinks(e, k + 1))
  }

  /** How tightly the outermost construct of e binds. */
  function ExprLevel(e: Expr): int {
    match e
    case ExprLiteral(_) | ExprName(_) | ExprUnary(_, _) => PREFIX_BP
    case ExprBinary(_, op, _) => LeftBP(BinaryToken(op))
    case ExprComparison(_, _) => COMPARISON_BP
    case ExprIf(_, _, _) => TERNARY_BP
    case ExprAssignment(_, _, _) => ASSIGNMENT_BP
  }

  /** e where an operand of at least the given level is asked for. */
  function Minimal(e: Expr, level: int): Syntax
    requires Denotable(e)
    decreases e, 2
  {
    if ExprLevel(e) < level then Group(Op(LeftParen), Bare(e), Op(RightParen)) else Bare(e)
  }

  lemma OperatorTokens()
    ensures forall op :: IsPrefix(UnaryToken(op)) && PrefixOp(UnaryToken(op)) == op
    ensures forall op :: IsBinary(BinaryToken(op)) && InfixOp(BinaryToken(op)) == op
    ensures forall op :: IsComparison(CompareToken(op)) && ComparisonOp(CompareToken(op)) == op
    ensures forall op :: IsAssignment(AssignToken(op)) && AssignmentOp(AssignToken(op)) == op
  {
  }

  lemma {:induction false} DigitsValueAppend(s: string, d: char, acc: nat)
    requires forall k :: 0 <= k < |s| ==> IsDigit(s[k])
    requires IsDigit(d)
    ensures DigitsValue(s + [d], 10, acc) == DigitsValue(s, 10, acc) * 10 + DigitValue(d)
    decreases |s|
  {
    if s == "" {
      assert (s + [d])[1..] == "";
    } else {
      assert (s + [d])[1..] == s[1..] + [d];
      DigitsValueAppend(s[1..], d, acc * 10 + DigitValue(s[0]));
    }
  }

  lemma {:induction false} DecimalValue(n: nat)
    ensures DigitsValue(Decimal(n), 10, 0) == n
  {
    var d := ('0' as int + n % 10) as char;
    if n < 10 {
      DigitsValueAppend("", d, 0);
      assert "" + [d] == Decimal(n);
    } else {
      DecimalValue(n / 10);
      DigitsValueAppend(Decimal(n / 10), d, 0);
    }
  }

  lemma LiteralValue(v: Literal)
    requires Denotable(ExprLiteral(v))
    ensures IsOperand(LiteralLexeme(v).kind) && OperandExpr(LiteralLexeme(v)) == ExprLiteral(v)
  {
    hide ValidLexeme;
    if v.IntValue? {
      DecimalValue(v.n);
    }
  }

  /** The printed tree respects the binding powers and means the expression. */
  lemma {:induction false} BareIsRight(e: Expr)
    requires Denotable(e)
    ensures WellBound(Bare(e)) && Meaning(Bare(e)) == e && Level(Bare(e)) == ExprLevel(e)
    ensures ASSIGNMENT_BP <= ExprLevel(e) <= PREFIX_BP
    decreases e, 1
  {
    hide OperandExpr, ValidLexeme, LiteralLexeme, LeftBP, Minimal;
    hide UnaryToken, BinaryToken, CompareToken, AssignToken, Spelling;
    OperatorTokens();
    match e
    case ExprLiteral(v) => LiteralValue(v);
    case ExprName(n) => NameValue(n);
    case ExprUnary(_, rhs) => MinimalIsRight(rhs, PREFIX_BP);
    case ExprBinary(_, _, _) => BareBinaryIsRight(e);
    case ExprComparison(_, _) => BareChainIsRight(e);
    case ExprIf(c, t, f) =>
      MinimalIsRight(c, TERNARY_BP + 1);
      MinimalIsRight(t, 0);
      MinimalIsRight(f, TERNARY_BP);
    case ExprAssignment(t, _, s) =>
      MinimalIsRight(t, TERNARY_BP + 1);
      MinimalIsRight(s, 0);
  }

  lemma {:induction false} BareBinaryIsRight(e: Expr)
    requires Denotable(e) && e.ExprBinary?
    ensures WellBound(Bare(e)) && Meaning(Bare(e)) == e && Level(Bare(e)) == ExprLevel(e)
    ensures ASSIGNMENT_BP <= ExprLevel(e) <= PREFIX_BP
    decreases e, 0, 0
  {
    hide OperandExpr, ValidLexeme, LiteralLexeme, LeftBP, Minimal;
    hide UnaryToken, BinaryToken, CompareToken, AssignToken, Spelling;
    OperatorTokens();
    BinaryBP(BinaryToken(e.bop));
    MinimalIsRight(e.left, LeftBP(BinaryToken(e.bop)));
    MinimalIsRight(e.right, LeftBP(BinaryToken(e.bop)) + 1);
  }

  lemma {:induction false} BareChainIsRight(e: Expr)
    requires Denotable(e) && e.ExprComparison?
    ensures WellBound(Bare(e)) && Meaning(Bare(e)) == e
    decreases e, 0, |e.ops| + 1
  {
    hide OperandExpr, ValidLexeme, LiteralLexeme, LeftBP, Minimal, Spelling;
    MinimalIsRight(e.operands[0], COMPARISON_BP + 1);
    BareLinksAreRight(e, 0);
    assert [e.operands[0]] + e.operands[1..] == e.operands && e.ops[0..] == e.ops;
  }

  lemma NameValue(n: string)
    ensures OperandExpr(Lexeme(Identifier, n)) == ExprName(n)
  {
  }

  lemma {:induction false} BareLinksAreRight(e: Expr, k: nat)
    requires Denotable(e) && e.ExprComparison? && k <= |e.ops|
    ensures WellBoundLinks(BareLinks(e, k)) && (k < |e.ops| ==> BareLinks(e, k).Link?)
    ensures LinkOperands(BareLinks(e, k)) == e.operands[k + 1..] && LinkOps(BareLinks(e, k)) == e.ops[k..]
    decreases e, 0, |e.ops| - k
  {
    hide OperandExpr, ValidLexeme, LiteralLexeme, LeftBP, Bare;
    if k < |e.ops| {
      OperatorTokens();
      MinimalIsRight(e.operands[k + 1], COMPARISON_BP + 1);
      BareLinksAreRight(e, k + 1);
    }
  }

  lemma {:induction false} MinimalIsRight(e: Expr, level: int)
    requires Denotable(e) && level <= PREFIX_BP
    ensures WellBound(Minimal(e, level)) && Meaning(Minimal(e, level)) == e && Level(Minimal(e, level)) >= level
    decreases e, 2
  {
    hide Bare;
    BareIsRight(e);
  }

  // ---------------------------------------------------------------- no parenthesis too many

  function Groups(s: Syntax): nat {
    match s
    case Atom(_) => 0
    case Group(_, inner, _) => 1 + Groups(inner)
    case Prefix(_, rhs) => Groups(rhs)
    case Infix(l, _, r) => Groups(l) + Groups(r)
    case Chain(first, links) => Groups(first) + LinkGroups(links)
    case Ternary(c, _, t, _, f) => Groups(c) + Groups(t) + Groups(f)
    case Assign(t, _, s) => Groups(t) + Groups(s)
  }

  function LinkGroups(k: Links): nat {
    match k
    case Last => 0
    case Link(_, operand, more) => Groups(operand) + LinkGroups(more)
  }

  /** No way to write an expression has fewer parentheses than the printed one. */
  lemma {:induction false} Fewest(s: Syntax, level: int)
    requires WellBound(s) && Level(s) >= level && Denotable(Meaning(s))
    ensures Groups(Minimal(Meaning(s), level)) <= Groups(s)
    decreases s, 2
  {
    hide ValidLexeme, LiteralLexeme, OperandExpr, Bare, PrefixOp, AssignmentOp, ComparisonOp;
    if s.Group? {
      Fewest(s.inner, 0);
      BareLevel(Meaning(s));
    } else {
      LevelOfMeaning(s);
      FewestBare(s);
    }
  }

  lemma BareLevel(e: Expr)
    requires Denotable(e)
    ensures ExprLevel(e) >= 0 && Minimal(e, 0) == Bare(e)
  {
    hide Bare;
    BareIsRight(e);
  }

  lemma TokensOfOps()
    ensures forall t :: IsBinary(t) ==> BinaryToken(InfixOp(t)) == t
  {
  }

  lemma LevelOfMeaning(s: Syntax)
    requires WellBound(s) && !s.Group?
    ensures ExprLevel(Meaning(s)) == Level(s)
  {
    TokensOfOps();
  }

  lemma {:induction false} FewestBare(s: Syntax)
    requires WellBound(s) && !s.Group? && Denotable(Meaning(s))
    ensures Groups(Bare(Meaning(s))) <= Groups(s)
    decreases s, 1
  {
    hide ValidLexeme, LiteralLexeme, OperandExpr, Minimal, PrefixOp;
    hide InfixOp, BinaryToken, AssignmentOp, ComparisonOp, Spelling, LeftBP;
    match s
    case Atom(l) => AtomGroups(l);
    case Prefix(_, rhs) => Fewest(rhs, PREFIX_BP);
    case Infix(l, op, r) => FewestInfix(s);
    case Chain(first, links) => FewestChain(s);
    case Ternary(c, _, t, _, f) => FewestTernary(s);
    case Assign(t, _, v) =>
      Fewest(t, TERNARY_BP + 1);
      LevelBound(v);
      Fewest(v, 0);
  }

  lemma {:induction false} FewestInfix(s: Syntax)
    requires WellBound(s) && s.Infix? && Denotable(Meaning(s))
    ensures Groups(Bare(Meaning(s))) <= Groups(s)
    decreases s, 0
  {
    hide Denotable, WellBound, Meaning, Bare, Minimal, Level, InfixOp, BinaryToken, LeftBP;
    InfixParts(s);
    BareInfix(Meaning(s.left), InfixOp(s.op.kind), Meaning(s.right));
    Fewest(s.left, LeftBP(s.op.kind));
    Fewest(s.right, LeftBP(s.op.kind) + 1);
  }

  lemma InfixParts(s: Syntax)
    requires WellBound(s) && s.Infix? && Denotable(Meaning(s))
    ensures WellBound(s.left) && WellBound(s.right) && IsBinary(s.op.kind)
    ensures Level(s.left) >= LeftBP(s.op.kind) && Level(s.right) >= LeftBP(s.op.kind) + 1
    ensures Denotable(Meaning(s.left)) && Denotable(Meaning(s.right))
    ensures Meaning(s) == ExprBinary(Meaning(s.left), InfixOp(s.op.kind), Meaning(s.right))
    ensures BinaryToken(InfixOp(s.op.kind)) == s.op.kind
  {
    hide Level, LeftBP, ValidLexeme, LiteralLexeme, OperandExpr;
    TokensOfOps();
  }

  lemma BareInfix(l: Expr, op: BinaryOp, r: Expr)
    requires Denotable(l) && Denotable(r)
    ensures var t := BinaryToken(op);
      && Denotable(ExprBinary(l, op, r))
      && Groups(Bare(ExprBinary(l, op, r))) == Groups(Minimal(l, LeftBP(t))) + Groups(Minimal(r, LeftBP(t) + 1))
  {
    hide Minimal, BinaryToken, LeftBP, ValidLexeme, LiteralLexeme, Spelling;
  }

  lemma {:induction false} FewestChain(s: Syntax)
    requires WellBound(s) && s.Chain? && Denotable(Meaning(s))
    ensures Groups(Bare(Meaning(s))) <= Groups(s)
    decreases s, 0
  {
    hide ValidLexeme, LiteralLexeme, OperandExpr, Minimal, PrefixOp;
    hide InfixOp, BinaryToken, AssignmentOp, ComparisonOp, Spelling, LeftBP;
    ChainParts(s);
    Fewest(s.first, COMPARISON_BP + 1);
    FewestLinks(s.links, Meaning(s), 0);
  }

  lemma {:induction false} FewestTernary(s: Syntax)
    requires WellBound(s) && s.Ternary? && Denotable(Meaning(s))
    ensures Groups(Bare(Meaning(s))) <= Groups(s)
    decreases s, 0
  {
    hide ValidLexeme, LiteralLexeme, OperandExpr, Minimal, PrefixOp;
    hide InfixOp, BinaryToken, AssignmentOp, ComparisonOp, Spelling, LeftBP;
    LevelBound(s.thenPart);
    Fewest(s.condition, TERNARY_BP + 1);
    Fewest(s.thenPart, 0);
    Fewest(s.elsePart, TERNARY_BP);
  }

  lemma AtomGroups(l: Lexeme)
    requires IsOperand(l.kind) && Denotable(OperandExpr(l))
    ensures Groups(Bare(OperandExpr(l))) == 0
  {
    hide ValidLexeme, LiteralLexeme, IntegerValue;
  }

  lemma ChainParts(s: Syntax)
    requires s.Chain? && WellBound(s)
    ensures var e := Meaning(s);
      && e.operands[0] == Meaning(s.first) && e.operands[1..] == LinkOperands(s.links)
      && e.ops[0..] == LinkOps(s.links) && |e.ops| == |LinkOps(s.links)|
  {
  }

  lemma {:induction false} FewestLinks(links: Links, e: Expr, k: nat)
    requires WellBoundLinks(links) && e.ExprComparison? && Denotable(e) && k <= |e.ops|
    requires e.operands[k + 1..] == LinkOperands(links) && e.ops[k..] == LinkOps(links)
    ensures LinkGroups(BareLinks(e, k)) <= LinkGroups(links)
    decreases links, 1
  {
    hide ValidLexeme, LiteralLexeme, OperandExpr, Minimal, ComparisonOp, Spelling, LeftBP;
    if links.Link? {
      assert e.operands[k + 1] == e.operands[k + 1..][0] == Meaning(links.operand);
      assert e.operands[k + 2..] == e.operands[k + 1..][1..] == LinkOperands(links.more);
      assert e.ops[k + 1..] == e.ops[k..][1..] == LinkOps(links.more);
      Fewest(links.operand, COMPARISON_BP + 1);
      FewestLinks(links.more, e, k + 1);
    }
  }

  // ---------------------------------------------------------------- the round trip

  ghost predicate AllValid(ls: seq<Lexeme>) {
    forall l :: l in ls ==> ValidLexeme(l)
  }

  lemma ValidConcat(a: seq<Lexeme>, b: seq<Lexeme>)
    ensures AllValid(a + b) <==> AllValid(a) && AllValid(b)
  {
    if AllValid(a + b) {
      forall l | l in a ensures ValidLexeme(l) { assert l in a + b; }
      forall l | l in b ensures ValidLexeme(l) { assert l in a + b; }
    }
  }

  lemma OpsValid()
    ensures forall t :: Spelling(t) != "" ==> ValidLexeme(Op(t))
    ensures forall op :: Spelling(UnaryToken(op)) != ""
    ensures forall op :: Spelling(BinaryToken(op)) != ""
    ensures forall op :: Spelling(CompareToken(op)) != ""
    ensures forall op :: Spelling(AssignToken(op)) != ""
    ensures forall t :: t in {Question, Colon, LeftParen, RightParen, Semicolon} ==> Spelling(t) != ""
  {
    hide Digits, HexText, RealForm, IdentifierText;
  }

  lemma {:induction false} BareValid(e: Expr)
    requires Denotable(e)
    ensures AllValid(Yield(Bare(e)))
    decreases e, 1
  {
    hide ValidLexeme, LiteralLexeme, LeftBP, Minimal, Spelling, AllValid, Op;
    OpsValid();
    match e
    case ExprLiteral(v) => OneValid(LiteralLexeme(v));
    case ExprName(n) => OneValid(Lexeme(Identifier, n));
    case ExprUnary(op, rhs) =>
      MinimalValid(rhs, PREFIX_BP);
      HeadValid(UnaryToken(op), Yield(Minimal(rhs, PREFIX_BP)));
    case ExprBinary(l, op, r) =>
      var t := BinaryToken(op);
      MinimalValid(l, LeftBP(t));
      MinimalValid(r, LeftBP(t) + 1);
      HeadValid(t, Yield(Minimal(r, LeftBP(t) + 1)));
      ValidConcat(Yield(Minimal(l, LeftBP(t))), [Op(t)] + Yield(Minimal(r, LeftBP(t) + 1)));
    case ExprComparison(operands, ops) =>
      MinimalValid(operands[0], COMPARISON_BP + 1);
      BareLinksValid(e, 0);
      ValidConcat(Yield(Minimal(operands[0], COMPARISON_BP + 1)), YieldLinks(BareLinks(e, 0)));
    case ExprIf(c, t, f) =>
      var cs, ts, fs := Yield(Minimal(c, TERNARY_BP + 1)), Yield(Minimal(t, 0)), Yield(Minimal(f, TERNARY_BP));
      MinimalValid(c, TERNARY_BP + 1);
      MinimalValid(t, 0);
      MinimalValid(f, TERNARY_BP);
      HeadValid(Colon, fs);
      ValidConcat(ts, [Op(Colon)] + fs);
      HeadValid(Question, ts + ([Op(Colon)] + fs));
      ValidConcat(cs, [Op(Question)] + (ts + ([Op(Colon)] + fs)));
    case ExprAssignment(t, op, s) =>
      MinimalValid(t, TERNARY_BP + 1);
      MinimalValid(s, 0);
      HeadValid(AssignToken(op), Yield(Minimal(s, 0)));
      ValidConcat(Yield(Minimal(t, TERNARY_BP + 1)), [Op(AssignToken(op))] + Yield(Minimal(s, 0)));
  }

  lemma OneValid(l: Lexeme)
    requires ValidLexeme(l)
    ensures AllValid([l])
  {
  }

  lemma HeadValid(t: TokenType, ls: seq<Lexeme>)
    requires Spelling(t) != "" && AllValid(ls)
    ensures AllValid([Op(t)] + ls)
  {
    hide ValidLexeme, AllValid;
    OpsValid();
    OneValid(Op(t));
    ValidConcat([Op(t)], ls);
  }

  lemma {:induction false} BareLinksValid(e: Expr, k: nat)
    requires Denotable(e) && e.ExprComparison? && k <= |e.ops|
    ensures AllValid(YieldLinks(BareLinks(e, k)))
    decreases e, 0, |e.ops| - k
  {
    hide ValidLexeme, LiteralLexeme, LeftBP, Minimal, Spelling;
    if k < |e.ops| {
      OpsValid();
      MinimalValid(e.operands[k + 1], COMPARISON_BP + 1);
      BareLinksValid(e, k + 1);
      var operand, more := Yield(Minimal(e.operands[k + 1], COMPARISON_BP + 1)), YieldLinks(BareLinks(e, k + 1));
      ValidConcat(operand, more);
      HeadValid(CompareToken(e.ops[k]), operand + more);
    }
  }

  lemma {:induction false} MinimalValid(e: Expr, level: int)
    requires Denotable(e)
    ensures AllValid(Yield(Minimal(e, level)))
    decreases e, 2
  {
    hide ValidLexeme, LeftBP, Bare, Spelling;
    OpsValid();
    BareValid(e);
    OneValid(Op(RightParen));
    ValidConcat(Yield(Bare(e)), [Op(RightParen)]);
    HeadValid(LeftParen, Yield(Bare(e)) + [Op(RightParen)]);
  }

  /** The statements es, each ended by a semicolon. */
  function PrintedScript(es: seq<Expr>): Script
    requires forall e :: e in es ==> Denotable(e)
  {
    if es == [] then Done
    else Statement(Minimal(es[0], 0), [Op(Semicolon)], PrintedScript(es[1..]))
  }

  lemma {:induction false} PrintedIsRight(es: seq<Expr>)
    requires forall e :: e in es ==> Denotable(e)
    ensures WellBoundScript(PrintedScript(es)) && ScriptMeaning(PrintedScript(es)) == es
    ensures AllValid(YieldScript(PrintedScript(es)))
  {
    hide Minimal, ValidLexeme, WellBound, Meaning, Yield, Denotable, Spelling;
    if es != [] {
      OpsValid();
      MinimalIsRight(es[0], 0);
      MinimalValid(es[0], 0);
      PrintedIsRight(es[1..]);
      var tail := YieldScript(PrintedScript(es[1..]));
      HeadValid(Semicolon, tail);
      ValidConcat(Yield(Minimal(es[0], 0)), [Op(Semicolon)] + tail);
    }
  }

  /** Parsing undoes printing, from text to text: tokenizing and parsing a printed script gives
      exactly the statements that were printed, if and only if their real literals convert. */
  lemma ParsePrinted(reals: Numerals, es: seq<Expr>)
    requires forall e :: e in es ==> Denotable(e)
    ensures var toks := Tokenize(Render(YieldScript(PrintedScript(es))), 0);
      Terminated(toks) && (ParseAll(reals, toks, 0) == Ok(es) <==> AllConvert(reals, es))
  {
    hide Minimal, ValidLexeme, WellBound, Meaning, Yield;
    hide YieldScript, Denotable, ParseAll, Tokenize, PrintedScript, AllConvert;
    var sc := PrintedScript(es);
    var src := Render(YieldScript(sc));
    PrintedIsRight(es);
    TokensTerminated(src, 0);
    assert src[0..] == src;
    TokenizeRender(YieldScript(sc), src, 0);
    assert IsScript(Tokenize(src, 0), 0, sc);
    ParserIsGrammar(reals, Tokenize(src, 0), es);
  }

  /** Whatever follows it, a statement that starts with a real literal out of range is refused. */
  lemma RealRefused(reals: Numerals, toks: Tokens, i: nat)
    requires i < |toks| && toks[i].lex.kind == Real && toks[i].lex.text !in reals
    ensures ParseAll(reals, toks, i) == Err(NoConversion(toks[i].lex.text))
  {
    hide ParseInfix, ParseChain, Terminated;
    assert ParsePrefix(reals, toks, i) == Err(NoConversion(toks[i].lex.text));
    assert ParseExpr(reals, toks, i, 0) == Err(NoConversion(toks[i].lex.text));
  }

  /** So the text 1e999 is a lexeme, but no script unless it converts. */
  lemma OutOfRange(reals: Numerals)
    requires "1e999" !in reals
    ensures ValidLexeme(Lexeme(Real, "1e999"))
    ensures var toks := Tokenize(Render([Lexeme(Real, "1e999")]), 0);
      Terminated(toks) && ParseAll(reals, toks, 0) == Err(NoConversion("1e999"))
  {
    hide Tokenize, ParseAll, ParseInfix, ParseChain;
    var ls := [Lexeme(Real, "1e999")];
    var src := Render(ls);
    TokensTerminated(src, 0);
    assert src[0..] == src;
    assert RealParts("1e999", 1, 1);
    assert ValidLexeme(ls[0]);
    TokenizeRender(ls, src, 0);
    assert Tokenize(src, 0)[0 + 0].lex == ls[0];
    RealRefused(reals, Tokenize(src, 0), 0);
  }
}
