/** The language ScriptParser accepts, defined without the parser: concrete syntax trees that
    keep their parentheses, what it means for one to respect the binding powers, and the
    theorems that the parser accepts exactly these trees. */
module ScriptGrammar {
  import opened ScriptTokens
  import opened ScriptParser

  datatype Syntax =
    | Atom(l: Lexeme)
    | Group(open: Lexeme, inner: Syntax, close: Lexeme)
    | Prefix(op: Lexeme, rhs: Syntax)
    | Infix(left: Syntax, op: Lexeme, right: Syntax)
    | Chain(first: Syntax, links: Links)
    | Ternary(condition: Syntax, question: Lexeme, thenPart: Syntax, colon: Lexeme, elsePart: Syntax)
    | Assign(target: Syntax, op: Lexeme, source: Syntax)

  /** The operators and further operands of a comparison chain. */
  datatype Links = Last | Link(op: Lexeme, operand: Syntax, more: Links)

  function Yield(s: Syntax): seq<Lexeme> {
    match s
    case Atom(l) => [l]
    case Group(o, inner, c) => [o] + (Yield(inner) + [c])
    case Prefix(op, rhs) => [op] + Yield(rhs)
    case Infix(l, op, r) => Yield(l) + ([op] + Yield(r))
    case Chain(first, links) => Yield(first) + YieldLinks(links)
    case Ternary(c, q, t, k, e) => Yield(c) + ([q] + (Yield(t) + ([k] + Yield(e))))
    case Assign(t, op, e) => Yield(t) + ([op] + Yield(e))
  }

  function YieldLinks(k: Links): seq<Lexeme> {
    match k
    case Last => []
    case Link(op, operand, more) => [op] + (Yield(operand) + YieldLinks(more))
  }

  /** The expression a concrete tree stands for: parentheses leave no trace. */
  function Meaning(s: Syntax): Expr
    requires WellBound(s)
  {
    match s
    case Atom(l) => OperandExpr(l)
    case Group(_, inner, _) => Meaning(inner)
    case Prefix(op, rhs) => ExprUnary(PrefixOp(op.kind), Meaning(rhs))
    case Infix(l, op, r) => ExprBinary(Meaning(l), InfixOp(op.kind), Meaning(r))
    case Chain(first, links) => ExprComparison([Meaning(first)] + LinkOperands(links), LinkOps(links))
    case Ternary(c, _, t, _, e) => ExprIf(Meaning(c), Meaning(t), Meaning(e))
    case Assign(t, op, e) => ExprAssignment(Meaning(t), AssignmentOp(op.kind), Meaning(e))
  }

  function LinkOperands(k: Links): seq<Expr>
    requires WellBoundLinks(k)
  {
    match k
    case Last => []
    case Link(_, operand, more) => [Meaning(operand)] + LinkOperands(more)
  }

  function LinkOps(k: Links): seq<CompareOp>
    requires WellBoundLinks(k)
  {
    match k
    case Last => []
    case Link(op, _, more) => [ComparisonOp(op.kind)] + LinkOps(more)
  }

  /** How tightly the outermost construct of a tree binds. */
  function Level(s: Syntax): int {
    match s
    case Atom(_) | Group(_, _, _) | Prefix(_, _) => PREFIX_BP
    case Infix(_, op, _) => LeftBP(op.kind)
    case Chain(_, _) => COMPARISON_BP
    case Ternary(_, _, _, _, _) => TERNARY_BP
    case Assign(_, _, _) => ASSIGNMENT_BP
  }

  /** Every construct has the right tokens, and every operand that is not in parentheses binds
      tightly enough for its place. Binary operators nest to the left, ternaries and
      assignments to the right; an operand of a chain is not itself a chain. */
  predicate WellBound(s: Syntax) {
    match s
    case Atom(l) => IsOperand(l.kind)
    case Group(o, inner, c) => o.kind == LeftParen && c.kind == RightParen && WellBound(inner)
    case Prefix(op, rhs) => IsPrefix(op.kind) && WellBound(rhs) && Level(rhs) >= PREFIX_BP
    case Infix(l, op, r) =>
      && IsBinary(op.kind) && WellBound(l) && WellBound(r)
      && Level(l) >= LeftBP(op.kind) && Level(r) > LeftBP(op.kind)
    case Chain(first, links) =>
      WellBound(first) && Level(first) > COMPARISON_BP && links.Link? && WellBoundLinks(links)
    case Ternary(c, q, t, k, e) =>
      && q.kind == Question && k.kind == Colon && WellBound(c) && WellBound(t) && WellBound(e)
      && Level(c) > TERNARY_BP && Level(e) >= TERNARY_BP
    case Assign(t, op, e) =>
      IsAssignment(op.kind) && WellBound(t) && WellBound(e) && Level(t) > TERNARY_BP
  }

  predicate WellBoundLinks(k: Links) {
    match k
    case Last => true
    case Link(op, operand, more) =>
      && IsComparison(op.kind) && WellBound(operand) && Level(operand) > COMPARISON_BP
      && WellBoundLinks(more)
  }

  // ---------------------------------------------------------------- completeness

  /** The token after s does not get drawn into s. */
  predicate Follows(s: Syntax, t: TokenType) {
    match s
    case Atom(_) | Group(_, _, _) | Prefix(_, _) => true
    case Infix(_, op, _) => LeftBP(t) <= LeftBP(op.kind)
    case Chain(_, _) => LeftBP(t) < COMPARISON_BP
    case Ternary(_, _, _, _, _) | Assign(_, _, _) => LeftBP(t) < 0
  }

  /** parseExpr(minBP) stops in front of t, whatever it has read. */
  predicate Stops(t: TokenType, minBP: int) {
    LeftBP(t) < 0 || (minBP > TERNARY_BP && LeftBP(t) < minBP)
  }

  // One step of each parse function, given what the calls it makes return.

  lemma ExprStep(reals: Numerals, toks: Tokens, i: nat, minBP: int, p: Parsed<Expr>)
    requires i < |toks| && ParsePrefix(reals, toks, i) == Ok(p)
    ensures p.next < |toks| && ParseExpr(reals, toks, i, minBP) == ParseInfix(reals, toks, p.next, p.tree, minBP)
  {
    hide ParsePrefix, ParseInfix, ParseChain;
  }

  lemma PrefixStep(reals: Numerals, toks: Tokens, i: nat, p: Parsed<Expr>)
    requires i + 1 < |toks| && IsPrefix(toks[i].lex.kind)
    requires ParseExpr(reals, toks, i + 1, PREFIX_BP) == Ok(p)
    ensures ParsePrefix(reals, toks, i) == Ok(Parsed(ExprUnary(PrefixOp(toks[i].lex.kind), p.tree), p.next))
  {
    hide ParseExpr, ParseInfix, ParseChain;
  }

  lemma GroupStep(reals: Numerals, toks: Tokens, i: nat, p: Parsed<Expr>)
    requires i + 1 < |toks| && toks[i].lex.kind == LeftParen
    requires ParseExpr(reals, toks, i + 1, 0) == Ok(p)
    requires toks[p.next].lex.kind == RightParen
    ensures ParsePrefix(reals, toks, i) == Ok(Parsed(p.tree, p.next + 1))
  {
    hide ParseExpr, ParseInfix, ParseChain;
  }

  lemma OperandStep(reals: Numerals, toks: Tokens, i: nat)
    requires i < |toks| && IsOperand(toks[i].lex.kind) && Converts(reals, OperandExpr(toks[i].lex))
    ensures ParsePrefix(reals, toks, i) == Ok(Parsed(OperandExpr(toks[i].lex), i + 1))
  {
    hide ParseExpr, ParseInfix, ParseChain;
  }

  lemma StopStep(reals: Numerals, toks: Tokens, i: nat, left: Expr, minBP: int)
    requires i < |toks| && Stops(toks[i].lex.kind, minBP)
    ensures ParseInfix(reals, toks, i, left, minBP) == Ok(Parsed(left, i))
  {
    hide ParseExpr, ParsePrefix, ParseChain;
  }

  lemma BinaryStep(reals: Numerals, toks: Tokens, i: nat, left: Expr, minBP: int, p: Parsed<Expr>)
    requires i + 1 < |toks| && IsBinary(toks[i].lex.kind) && LeftBP(toks[i].lex.kind) >= minBP
    requires ParseExpr(reals, toks, i + 1, LeftBP(toks[i].lex.kind) + 1) == Ok(p)
    ensures ParseInfix(reals, toks, i, left, minBP)
         == ParseInfix(reals, toks, p.next, ExprBinary(left, InfixOp(toks[i].lex.kind), p.tree), minBP)
  {
    hide ParseExpr, ParsePrefix, ParseChain;
  }

  lemma AssignStep(reals: Numerals, toks: Tokens, i: nat, left: Expr, minBP: int, p: Parsed<Expr>)
    requires i + 1 < |toks| && IsAssignment(toks[i].lex.kind) && ASSIGNMENT_BP >= minBP
    requires ParseExpr(reals, toks, i + 1, 0) == Ok(p)
    ensures ParseInfix(reals, toks, i, left, minBP)
         == Ok(Parsed(ExprAssignment(left, AssignmentOp(toks[i].lex.kind), p.tree), p.next))
  {
    hide ParseExpr, ParsePrefix, ParseChain;
  }

  lemma TernaryStep(reals: Numerals, toks: Tokens, i: nat, left: Expr, minBP: int, t: Parsed<Expr>, e: Parsed<Expr>)
    requires i + 1 < |toks| && toks[i].lex.kind == Question && TERNARY_BP >= minBP
    requires ParseExpr(reals, toks, i + 1, 0) == Ok(t)
    requires toks[t.next].lex.kind == Colon && t.next + 1 < |toks|
    requires ParseExpr(reals, toks, t.next + 1, TERNARY_BP) == Ok(e)
    ensures ParseInfix(reals, toks, i, left, minBP) == Ok(Parsed(ExprIf(left, t.tree, e.tree), e.next))
  {
    hide ParseExpr, ParsePrefix, ParseChain;
  }

  lemma ComparisonStep(reals: Numerals, toks: Tokens, i: nat, left: Expr, minBP: int, p: Parsed<Expr>)
    requires i < |toks| && IsComparison(toks[i].lex.kind) && COMPARISON_BP >= minBP
    requires ParseChain(reals, toks, i, [left], []) == Ok(p)
    ensures ParseInfix(reals, toks, i, left, minBP) == ParseInfix(reals, toks, p.next, p.tree, minBP)
  {
    hide ParseExpr, ParsePrefix, ParseChain;
  }

  lemma LinkStep(reals: Numerals, toks: Tokens, i: nat, operands: seq<Expr>, ops: seq<CompareOp>, p: Parsed<Expr>)
    requires i + 1 < |toks| && IsComparison(toks[i].lex.kind)
    requires ParseExpr(reals, toks, i + 1, COMPARISON_BP + 1) == Ok(p)
    ensures ParseChain(reals, toks, i, operands, ops)
         == ParseChain(reals, toks, p.next, operands + [p.tree], ops + [ComparisonOp(toks[i].lex.kind)])
  {
    hide ParseExpr, ParsePrefix, ParseInfix;
  }

  lemma LastStep(reals: Numerals, toks: Tokens, i: nat, operands: seq<Expr>, ops: seq<CompareOp>)
    requires i < |toks| && !IsComparison(toks[i].lex.kind)
    ensures ParseChain(reals, toks, i, operands, ops) == Ok(Parsed(ExprComparison(operands, ops), i))
  {
    hide ParseExpr, ParsePrefix, ParseInfix;
  }

  lemma ConvertsHead(reals: Numerals, e: Expr, es: seq<Expr>)
    ensures AllConvert(reals, [e] + es) <==> Converts(reals, e) && AllConvert(reals, es)
  {
    hide Converts;
    if AllConvert(reals, [e] + es) {
      assert ([e] + es)[0] == e;
      forall k | 0 <= k < |es| ensures Converts(reals, es[k]) {
        assert ([e] + es)[k + 1] == es[k];
      }
    }
  }

  lemma ConvertsChain(reals: Numerals, operands: seq<Expr>, ops: seq<CompareOp>)
    ensures Converts(reals, ExprComparison(operands, ops)) <==> AllConvert(reals, operands)
  {
  }

  /** Reading a tree that is neither a ternary nor an assignment brings the parser to its loop
      with that tree on the left. */
  lemma {:induction false} ReadsOperator(reals: Numerals, s: Syntax, toks: Tokens, i: nat, minBP: int)
    requires WellBound(s) && At(toks, i, Yield(s)) && i + |Yield(s)| < |toks|
    requires Converts(reals, Meaning(s))
    requires Level(s) > TERNARY_BP && Level(s) >= minBP
    requires Follows(s, toks[i + |Yield(s)|].lex.kind)
    ensures ParseExpr(reals, toks, i, minBP) == ParseInfix(reals, toks, i + |Yield(s)|, Meaning(s), minBP)
    decreases s, 1
  {
    hide ParseExpr, ParsePrefix, ParseInfix, ParseChain, At, Terminated;
    match s
    case Atom(l) =>
      assert [l] + [] == [l];
      AtHead(toks, i, l, []);
      OperandStep(reals, toks, i);
      ExprStep(reals, toks, i, minBP, Parsed(Meaning(s), i + 1));
    case Group(o, inner, c) =>
      ReadsGroup(reals, s, toks, i);
      ExprStep(reals, toks, i, minBP, Parsed(Meaning(s), i + |Yield(s)|));
    case Prefix(op, rhs) =>
      ReadsPrefix(reals, s, toks, i);
      ExprStep(reals, toks, i, minBP, Parsed(Meaning(s), i + |Yield(s)|));
    case Infix(l, op, r) =>
      ReadsInfix(reals, l, op, r, toks, i, minBP);
    case Chain(first, links) =>
      ReadsChain(reals, s, toks, i, minBP);
  }

  lemma {:induction false} ReadsGroup(reals: Numerals, s: Syntax, toks: Tokens, i: nat)
    requires s.Group? && WellBound(s) && At(toks, i, Yield(s)) && i + |Yield(s)| < |toks|
    requires Converts(reals, Meaning(s))
    ensures ParsePrefix(reals, toks, i) == Ok(Parsed(Meaning(s), i + |Yield(s)|))
    decreases s, 0
  {
    hide ParseExpr, ParsePrefix, ParseInfix, ParseChain, At, Terminated;
    var Group(o, inner, c) := s;
    AtHead(toks, i, o, Yield(inner) + [c]);
    assert [c] + [] == [c];
    AtSplit(toks, i + 1, Yield(inner), c, []);
    ReadsAll(reals, inner, toks, i + 1, 0);
    GroupStep(reals, toks, i, Parsed(Meaning(inner), i + 1 + |Yield(inner)|));
  }

  lemma {:induction false} ReadsPrefix(reals: Numerals, s: Syntax, toks: Tokens, i: nat)
    requires s.Prefix? && WellBound(s) && At(toks, i, Yield(s)) && i + |Yield(s)| < |toks|
    requires Converts(reals, Meaning(s))
    ensures ParsePrefix(reals, toks, i) == Ok(Parsed(Meaning(s), i + |Yield(s)|))
    decreases s, 0
  {
    hide ParseExpr, ParsePrefix, ParseInfix, ParseChain, At, Terminated;
    var Prefix(op, rhs) := s;
    AtHead(toks, i, op, Yield(rhs));
    ReadsAll(reals, rhs, toks, i + 1, PREFIX_BP);
    PrefixStep(reals, toks, i, Parsed(Meaning(rhs), i + |Yield(s)|));
  }

  lemma {:induction false} ReadsChain(reals: Numerals, s: Syntax, toks: Tokens, i: nat, minBP: int)
    requires s.Chain? && WellBound(s) && At(toks, i, Yield(s)) && i + |Yield(s)| < |toks|
    requires Converts(reals, Meaning(s))
    requires COMPARISON_BP >= minBP && LeftBP(toks[i + |Yield(s)|].lex.kind) < COMPARISON_BP
    ensures ParseExpr(reals, toks, i, minBP) == ParseInfix(reals, toks, i + |Yield(s)|, Meaning(s), minBP)
    decreases s, 0
  {
    hide Converts, AllConvert, ParseExpr, ParsePrefix, ParseInfix, ParseChain, At, Terminated;
    var Chain(first, links) := s;
    var j := i + |Yield(first)|;
    AtConcat(toks, i, Yield(first), YieldLinks(links));
    LinkParts(links, toks, j);
    ConvertsChain(reals, [Meaning(first)] + LinkOperands(links), LinkOps(links));
    ConvertsHead(reals, Meaning(first), LinkOperands(links));
    ReadsOperator(reals, first, toks, i, minBP);
    ReadsLinks(reals, links, toks, j, [Meaning(first)], []);
    assert [] + LinkOps(links) == LinkOps(links);
    ComparisonStep(reals, toks, j, Meaning(first), minBP, Parsed(Meaning(s), i + |Yield(s)|));
  }

  lemma LinkParts(k: Links, toks: Tokens, i: nat)
    requires k.Link? && At(toks, i, YieldLinks(k))
    ensures var j := i + 1 + |Yield(k.operand)|;
      && i < |toks| && toks[i].lex == k.op && At(toks, i + 1, Yield(k.operand))
      && At(toks, j, YieldLinks(k.more)) && i + |YieldLinks(k)| == j + |YieldLinks(k.more)|
  {
    hide At, Terminated;
    AtHead(toks, i, k.op, Yield(k.operand) + YieldLinks(k.more));
    AtConcat(toks, i + 1, Yield(k.operand), YieldLinks(k.more));
  }

  lemma {:induction false} ReadsInfix(reals: Numerals, l: Syntax, op: Lexeme, r: Syntax, toks: Tokens, i: nat,
          minBP: int)
    requires var s := Infix(l, op, r);
      && WellBound(s) && At(toks, i, Yield(s)) && i + |Yield(s)| < |toks|
      && LeftBP(op.kind) >= minBP && LeftBP(toks[i + |Yield(s)|].lex.kind) <= LeftBP(op.kind)
      && Converts(reals, Meaning(s))
    ensures var s := Infix(l, op, r);
      ParseExpr(reals, toks, i, minBP) == ParseInfix(reals, toks, i + |Yield(s)|, Meaning(s), minBP)
    decreases Infix(l, op, r), 0
  {
    hide ParseExpr, ParsePrefix, ParseInfix, ParseChain, At, Terminated, IsBinary, LeftBP;
    hide WellBound, Meaning, Level, Follows;
    var s := Infix(l, op, r);
    InfixParted(s, toks[i + |Yield(s)|].lex.kind);
    ConvertsInfix(reals, Meaning(l), InfixOp(op.kind), Meaning(r));
    BinaryBP(op.kind);
    AtSplit(toks, i, Yield(l), op, Yield(r));
    var j := i + |Yield(l)|;
    ReadsOperator(reals, l, toks, i, minBP);
    ReadsAll(reals, r, toks, j + 1, LeftBP(op.kind) + 1);
    BinaryStep(reals, toks, j, Meaning(l), minBP, Parsed(Meaning(r), j + 1 + |Yield(r)|));
  }

  lemma InfixParted(s: Syntax, t: TokenType)
    requires s.Infix? && WellBound(s) && LeftBP(t) <= LeftBP(s.op.kind)
    ensures WellBound(s.left) && WellBound(s.right) && IsBinary(s.op.kind)
    ensures Level(s.left) >= LeftBP(s.op.kind) && Level(s.right) > LeftBP(s.op.kind)
    ensures Level(s.left) > TERNARY_BP && Follows(s.left, s.op.kind) && Stops(t, LeftBP(s.op.kind) + 1)
    ensures Meaning(s) == ExprBinary(Meaning(s.left), InfixOp(s.op.kind), Meaning(s.right))
  {
    BinaryBP(s.op.kind);
  }

  lemma ConvertsInfix(reals: Numerals, l: Expr, op: BinaryOp, r: Expr)
    ensures Converts(reals, ExprBinary(l, op, r)) <==> Converts(reals, l) && Converts(reals, r)
  {
  }

  lemma BinaryBP(t: TokenType)
    requires IsBinary(t)
    ensures TERNARY_BP < LeftBP(t) < PREFIX_BP && LeftBP(t) != COMPARISON_BP
    ensures !IsComparison(t)
  {
  }

  lemma {:induction false} ReadsLinks(reals: Numerals, k: Links, toks: Tokens, i: nat, operands: seq<Expr>,
          ops: seq<CompareOp>)
    requires WellBoundLinks(k) && At(toks, i, YieldLinks(k)) && i + |YieldLinks(k)| < |toks|
    requires AllConvert(reals, LinkOperands(k))
    requires LeftBP(toks[i + |YieldLinks(k)|].lex.kind) < COMPARISON_BP
    ensures ParseChain(reals, toks, i, operands, ops)
         == Ok(Parsed(ExprComparison(operands + LinkOperands(k), ops + LinkOps(k)), i + |YieldLinks(k)|))
    decreases k, 0
  {
    hide Converts, AllConvert, ParseExpr, ParsePrefix, ParseInfix;
    hide ParseChain, At, Terminated, Meaning, WellBound, Level;
    match k
    case Last =>
      assert operands + LinkOperands(k) == operands && ops + LinkOps(k) == ops;
      LastStep(reals, toks, i, operands, ops);
    case Link(op, operand, more) =>
      var n := |Yield(operand)|;
      ConvertsHead(reals, Meaning(operand), LinkOperands(more));
      LinkParts(k, toks, i);
      if more.Link? {
        LinkParts(more, toks, i + 1 + n);
      }
      ReadsAll(reals, operand, toks, i + 1, COMPARISON_BP + 1);
      LinkStep(reals, toks, i, operands, ops, Parsed(Meaning(operand), i + 1 + n));
      ReadsLinks(reals, more, toks, i + 1 + n, operands + [Meaning(operand)], ops + [ComparisonOp(op.kind)]);
      assert operands + [Meaning(operand)] + LinkOperands(more) == operands + LinkOperands(k);
      assert ops + [ComparisonOp(op.kind)] + LinkOps(more) == ops + LinkOps(k);
  }

  lemma TernaryParts(s: Syntax, toks: Tokens, i: nat)
    requires s.Ternary? && At(toks, i, Yield(s))
    ensures var j := i + |Yield(s.condition)| + 1; var m := j + |Yield(s.thenPart)| + 1;
      && At(toks, i, Yield(s.condition)) && j <= |toks| && toks[j - 1].lex == s.question
      && At(toks, j, Yield(s.thenPart)) && m <= |toks| && toks[m - 1].lex == s.colon
      && At(toks, m, Yield(s.elsePart)) && i + |Yield(s)| == m + |Yield(s.elsePart)|
  {
    hide At, Terminated;
    AtSplit(toks, i, Yield(s.condition), s.question, Yield(s.thenPart) + ([s.colon] + Yield(s.elsePart)));
    AtSplit(toks, i + |Yield(s.condition)| + 1, Yield(s.thenPart), s.colon, Yield(s.elsePart));
  }

  lemma {:induction false} ReadsTernary(reals: Numerals, s: Syntax, toks: Tokens, i: nat, minBP: int)
    requires s.Ternary? && WellBound(s) && At(toks, i, Yield(s)) && i + |Yield(s)| < |toks|
    requires Converts(reals, Meaning(s))
    requires TERNARY_BP >= minBP && LeftBP(toks[i + |Yield(s)|].lex.kind) < 0
    ensures ParseExpr(reals, toks, i, minBP) == Ok(Parsed(Meaning(s), i + |Yield(s)|))
    decreases s, 0
  {
    hide ParseExpr, ParsePrefix, ParseInfix, ParseChain, At, Terminated, LeftBP;
    hide Yield, WellBound, Meaning, Level, Follows;
    var Ternary(c, q, t, k, e) := s;
    TernaryParts(s, toks, i);
    TernaryBound(s);
    var j := i + |Yield(c)| + 1;
    ReadsOperator(reals, c, toks, i, minBP);
    ReadsAll(reals, t, toks, j, 0);
    ReadsAll(reals, e, toks, j + |Yield(t)| + 1, TERNARY_BP);
    TernaryStep(reals, toks, j - 1, Meaning(c), minBP,
                Parsed(Meaning(t), j + |Yield(t)|), Parsed(Meaning(e), i + |Yield(s)|));
  }

  lemma TernaryBound(s: Syntax)
    requires s.Ternary? && WellBound(s)
    ensures WellBound(s.condition) && WellBound(s.thenPart) && WellBound(s.elsePart)
    ensures s.question.kind == Question && s.colon.kind == Colon
    ensures Level(s.condition) > TERNARY_BP && Level(s.elsePart) >= TERNARY_BP && Level(s.thenPart) >= 0
    ensures Follows(s.condition, Question) && LeftBP(Colon) < 0
    ensures Meaning(s) == ExprIf(Meaning(s.condition), Meaning(s.thenPart), Meaning(s.elsePart))
  {
    hide WellBound, Meaning, Level, Follows, PrefixOp, InfixOp, AssignmentOp, ComparisonOp;
    TernaryParted(s);
    LevelBound(s.thenPart);
    FollowsQuestion(s.condition);
  }

  lemma TernaryParted(s: Syntax)
    requires s.Ternary? && WellBound(s)
    ensures WellBound(s.condition) && WellBound(s.thenPart) && WellBound(s.elsePart)
    ensures s.question.kind == Question && s.colon.kind == Colon
    ensures Level(s.condition) > TERNARY_BP && Level(s.elsePart) >= TERNARY_BP
    ensures Meaning(s) == ExprIf(Meaning(s.condition), Meaning(s.thenPart), Meaning(s.elsePart))
  {
    hide Level;
  }

  lemma FollowsQuestion(s: Syntax)
    requires WellBound(s) && Level(s) > TERNARY_BP
    ensures Follows(s, Question)
  {
  }

  lemma {:induction false} ReadsAssign(reals: Numerals, s: Syntax, toks: Tokens, i: nat, minBP: int)
    requires s.Assign? && WellBound(s) && At(toks, i, Yield(s)) && i + |Yield(s)| < |toks|
    requires Converts(reals, Meaning(s))
    requires ASSIGNMENT_BP >= minBP && LeftBP(toks[i + |Yield(s)|].lex.kind) < 0
    ensures ParseExpr(reals, toks, i, minBP) == Ok(Parsed(Meaning(s), i + |Yield(s)|))
    decreases s, 0
  {
    hide ParseExpr, ParsePrefix, ParseInfix, ParseChain, At, Terminated, LeftBP, WellBound, Meaning, Level, Follows;
    var Assign(t, op, e) := s;
    AtSplit(toks, i, Yield(t), op, Yield(e));
    AssignParted(s);
    LevelBound(e);
    FollowsAssign(t, op.kind);
    ReadsOperator(reals, t, toks, i, minBP);
    ReadsAll(reals, e, toks, i + |Yield(t)| + 1, 0);
    AssignStep(reals, toks, i + |Yield(t)|, Meaning(t), minBP, Parsed(Meaning(e), i + |Yield(s)|));
  }

  lemma AssignParted(s: Syntax)
    requires s.Assign? && WellBound(s)
    ensures WellBound(s.target) && WellBound(s.source) && IsAssignment(s.op.kind) && Level(s.target) > TERNARY_BP
    ensures Meaning(s) == ExprAssignment(Meaning(s.target), AssignmentOp(s.op.kind), Meaning(s.source))
  {
    hide Level;
  }

  lemma FollowsAssign(s: Syntax, t: TokenType)
    requires WellBound(s) && Level(s) > TERNARY_BP && IsAssignment(t)
    ensures Follows(s, t)
  {
  }

  lemma OperatorStops(s: Syntax, t: TokenType, minBP: int)
    requires WellBound(s) && !s.Ternary? && !s.Assign? && Level(s) >= minBP && Stops(t, minBP)
    ensures Level(s) > TERNARY_BP && Follows(s, t)
  {
    if s.Infix? {
      BinaryBP(s.op.kind);
    }
  }

  /** Completeness: the tokens of any well-bound tree, in a context that asks for no more than
      its level and followed by a token that ends it, parse to exactly its meaning. */
  lemma {:induction false} ReadsAll(reals: Numerals, s: Syntax, toks: Tokens, i: nat, minBP: int)
    requires WellBound(s) && At(toks, i, Yield(s)) && i + |Yield(s)| < |toks|
    requires Converts(reals, Meaning(s))
    requires Level(s) >= minBP
    requires Stops(toks[i + |Yield(s)|].lex.kind, minBP)
    ensures ParseExpr(reals, toks, i, minBP) == Ok(Parsed(Meaning(s), i + |Yield(s)|))
    decreases s, 2
  {
    hide ParseExpr, ParsePrefix, ParseInfix, ParseChain, At, Terminated, Yield, Meaning, WellBound, LeftBP;
    match s
    case Ternary(_, _, _, _, _) =>
      ReadsTernary(reals, s, toks, i, minBP);
    case Assign(_, _, _) =>
      ReadsAssign(reals, s, toks, i, minBP);
    case _ =>
      OperatorStops(s, toks[i + |Yield(s)|].lex.kind, minBP);
      ReadsOperator(reals, s, toks, i, minBP);
      StopStep(reals, toks, i + |Yield(s)|, Meaning(s), minBP);
  }

  // ---------------------------------------------------------------- soundness

  /** s accounts for a successful parse of the tokens from i on. */
  ghost predicate Explains(s: Syntax, toks: Tokens, i: nat, p: Parsed<Expr>) {
    && WellBound(s) && Meaning(s) == p.tree
    && p.next == i + |Yield(s)| && p.next < |toks| && At(toks, i, Yield(s))
  }

  lemma {:induction false} PrefixSound(reals: Numerals, toks: Tokens, i: nat) returns (s: Syntax)
    requires i < |toks| && ParsePrefix(reals, toks, i).Ok?
    ensures Explains(s, toks, i, ParsePrefix(reals, toks, i).value)
    ensures s.Atom? || s.Group? || s.Prefix?
    decreases |toks| - i, 0
  {
    hide ParseExpr, ParseInfix, ParseChain, At, Terminated, LeftBP, Yield, WellBound, Meaning, Level;
    var l := toks[i].lex;
    if IsPrefix(l.kind) {
      var rhs := ExprSound(reals, toks, i + 1, PREFIX_BP);
      s := PrefixYield(rhs, toks, i);
    } else if l.kind == LeftParen {
      var inner := ExprSound(reals, toks, i + 1, 0);
      s := GroupYield(inner, toks, i);
    } else {
      s := AtomYield(toks, i);
    }
  }

  lemma PrefixYield(rhs: Syntax, toks: Tokens, i: nat) returns (s: Syntax)
    requires i + 1 + |Yield(rhs)| < |toks| && IsPrefix(toks[i].lex.kind) && At(toks, i + 1, Yield(rhs))
    requires WellBound(rhs) && Level(rhs) >= PREFIX_BP
    ensures var p := ExprUnary(PrefixOp(toks[i].lex.kind), Meaning(rhs));
      s.Prefix? && Explains(s, toks, i, Parsed(p, i + 1 + |Yield(rhs)|))
  {
    hide At, Terminated, Level;
    s := Prefix(toks[i].lex, rhs);
    AtCons(toks, i, toks[i].lex, Yield(rhs));
  }

  lemma AtomYield(toks: Tokens, i: nat) returns (s: Syntax)
    requires i + 1 < |toks| && IsOperand(toks[i].lex.kind)
    ensures s.Atom? && Explains(s, toks, i, Parsed(OperandExpr(toks[i].lex), i + 1))
  {
    hide At, Terminated, OperandExpr;
    var l := toks[i].lex;
    s := Atom(l);
    AtNone(toks, i + 1);
    AtCons(toks, i, l, []);
    assert [l] + [] == [l];
  }

  lemma GroupYield(inner: Syntax, toks: Tokens, i: nat) returns (s: Syntax)
    requires var j := i + 1 + |Yield(inner)|;
      && WellBound(inner) && j + 1 < |toks| && At(toks, i + 1, Yield(inner))
      && toks[i].lex.kind == LeftParen && toks[j].lex.kind == RightParen
    ensures s.Group? && Explains(s, toks, i, Parsed(Meaning(inner), i + 2 + |Yield(inner)|))
  {
    hide At, Terminated;
    var j := i + 1 + |Yield(inner)|;
    var close := toks[j].lex;
    AtNone(toks, j + 1);
    AtJoin(toks, i + 1, Yield(inner), close, []);
    assert [close] + [] == [close];
    AtCons(toks, i, toks[i].lex, Yield(inner) + [close]);
    s := Group(toks[i].lex, inner, close);
  }

  lemma {:induction false} ExprSound(reals: Numerals, toks: Tokens, i: nat, minBP: int) returns (s: Syntax)
    requires i < |toks| && minBP <= PREFIX_BP && ParseExpr(reals, toks, i, minBP).Ok?
    ensures Explains(s, toks, i, ParseExpr(reals, toks, i, minBP).value) && Level(s) >= minBP
    ensures var t := toks[i + |Yield(s)|].lex.kind; LeftBP(t) < minBP || LeftBP(t) <= TERNARY_BP
    decreases |toks| - i, 1
  {
    hide ParsePrefix, ParseInfix, ParseChain, At, Terminated, LeftBP;
    var first := PrefixSound(reals, toks, i);
    s := InfixSound(reals, first, toks, i, minBP);
  }

  /** What the loop of parseExpr did if it succeeded. */
  lemma InfixCases(reals: Numerals, toks: Tokens, i: nat, left: Expr, minBP: int)
    requires i < |toks| && ParseInfix(reals, toks, i, left, minBP).Ok?
    ensures
      var t, p := toks[i].lex.kind, ParseInfix(reals, toks, i, left, minBP);
      if LeftBP(t) < 0 || LeftBP(t) < minBP then p.value == Parsed(left, i)
      else if IsAssignment(t) then
        && i + 1 < |toks| && ParseExpr(reals, toks, i + 1, 0).Ok?
        && p.value.tree == ExprAssignment(left, AssignmentOp(t), ParseExpr(reals, toks, i + 1, 0).value.tree)
        && p.value.next == ParseExpr(reals, toks, i + 1, 0).value.next
      else if t == Question then
        && i + 1 < |toks| && ParseExpr(reals, toks, i + 1, 0).Ok?
        && var thenPart := ParseExpr(reals, toks, i + 1, 0).value;
        && toks[thenPart.next].lex.kind == Colon && thenPart.next + 1 < |toks|
        && var elsePart := ParseExpr(reals, toks, thenPart.next + 1, TERNARY_BP);
        && elsePart.Ok? && p.value == Parsed(ExprIf(left, thenPart.tree, elsePart.value.tree), elsePart.value.next)
      else if IsComparison(t) then
        && ParseChain(reals, toks, i, [left], []).Ok?
        && var chain := ParseChain(reals, toks, i, [left], []).value;
        && i < chain.next < |toks| && p == ParseInfix(reals, toks, chain.next, chain.tree, minBP)
      else
        && IsBinary(t) && i + 1 < |toks| && ParseExpr(reals, toks, i + 1, LeftBP(t) + 1).Ok?
        && var right := ParseExpr(reals, toks, i + 1, LeftBP(t) + 1).value;
        && right.next < |toks|
        && p == ParseInfix(reals, toks, right.next, ExprBinary(left, InfixOp(t), right.tree), minBP)
  {
    hide ParsePrefix, ParseExpr, ParseChain;
  }

  /** The loop of parseExpr keeps: left is well bound, and the token after it is not drawn
      into it. */
  lemma {:induction false} InfixSound(reals: Numerals, left: Syntax, toks: Tokens, i: nat, minBP: int)
    returns (s: Syntax)
    requires i + |Yield(left)| < |toks| && minBP <= PREFIX_BP
    requires WellBound(left) && At(toks, i, Yield(left))
    requires Level(left) > TERNARY_BP && Level(left) >= minBP
    requires Follows(left, toks[i + |Yield(left)|].lex.kind)
    requires ParseInfix(reals, toks, i + |Yield(left)|, Meaning(left), minBP).Ok?
    ensures Explains(s, toks, i, ParseInfix(reals, toks, i + |Yield(left)|, Meaning(left), minBP).value)
    ensures Level(s) >= minBP
    ensures var t := toks[i + |Yield(s)|].lex.kind; LeftBP(t) < minBP || LeftBP(t) <= TERNARY_BP
    decreases |toks| - (i + |Yield(left)|), 3
  {
    hide ParsePrefix, ParseInfix, ParseExpr, ParseChain, At, Terminated, Yield;
    hide WellBound, Meaning, Level, Follows, LeftBP, IsAssignment, IsComparison, IsBinary;
    var j := i + |Yield(left)|;
    var t := toks[j].lex.kind;
    InfixCases(reals, toks, j, Meaning(left), minBP);
    if LeftBP(t) < 0 || LeftBP(t) < minBP {
      s := left;
    } else if IsAssignment(t) {
      s := AssignSound(reals, left, toks, i, minBP);
    } else if t == Question {
      s := TernarySound(reals, left, toks, i, minBP);
    } else if IsComparison(t) {
      var chain := GrowByChain(reals, left, toks, i, minBP);
      s := InfixSound(reals, chain, toks, i, minBP);
    } else {
      var infix := GrowByOperator(reals, left, toks, i, minBP);
      s := InfixSound(reals, infix, toks, i, minBP);
    }
  }

  /** One turn of the loop that goes on: s is the new left side. */
  ghost predicate Grows(reals: Numerals, left: Syntax, s: Syntax, toks: Tokens, i: nat, minBP: int)
    requires i + |Yield(left)| < |toks| && WellBound(left)
  {
    && i + |Yield(left)| < i + |Yield(s)| < |toks| && WellBound(s) && At(toks, i, Yield(s))
    && Level(s) > TERNARY_BP && Level(s) >= minBP && Follows(s, toks[i + |Yield(s)|].lex.kind)
    && ParseInfix(reals, toks, i + |Yield(left)|, Meaning(left), minBP)
      == ParseInfix(reals, toks, i + |Yield(s)|, Meaning(s), minBP)
  }

  lemma {:induction false} GrowByChain(reals: Numerals, left: Syntax, toks: Tokens, i: nat, minBP: int)
    returns (s: Syntax)
    requires i + |Yield(left)| < |toks| && LeftBP(toks[i + |Yield(left)|].lex.kind) >= minBP
    requires WellBound(left) && At(toks, i, Yield(left)) && Level(left) > TERNARY_BP
    requires Follows(left, toks[i + |Yield(left)|].lex.kind) && IsComparison(toks[i + |Yield(left)|].lex.kind)
    requires ParseInfix(reals, toks, i + |Yield(left)|, Meaning(left), minBP).Ok?
    ensures Grows(reals, left, s, toks, i, minBP)
    decreases |toks| - (i + |Yield(left)|), 2
  {
    hide ParsePrefix, ParseInfix, ParseExpr, ParseChain, At, Terminated;
    hide Yield, WellBound, WellBoundLinks, Meaning, Level, Follows;
    var j := i + |Yield(left)|;
    InfixCases(reals, toks, j, Meaning(left), minBP);
    var links := ChainSound(reals, toks, j, [Meaning(left)], []);
    s := Chain(left, links);
    ChainBuilt(left, toks[j].lex.kind, links);
    ChainYield(left, links, toks, i);
    assert [] + LinkOps(links) == LinkOps(links);
  }

  /** t is the first comparison of the chain. */
  lemma ChainBuilt(first: Syntax, t: TokenType, links: Links)
    requires WellBound(first) && Level(first) > TERNARY_BP && IsComparison(t) && Follows(first, t)
    requires links.Link? && WellBoundLinks(links)
    ensures var s := Chain(first, links);
      && WellBound(s) && Meaning(s) == ExprComparison([Meaning(first)] + LinkOperands(links), LinkOps(links))
      && Level(s) == COMPARISON_BP
      && forall u :: LeftBP(u) < COMPARISON_BP ==> Follows(s, u)
  {
    ChainFirst(first, t);
    hide WellBoundLinks;
  }

  lemma ChainFirst(first: Syntax, t: TokenType)
    requires WellBound(first) && Level(first) > TERNARY_BP && IsComparison(t) && Follows(first, t)
    ensures Level(first) > COMPARISON_BP
  {
    if first.Infix? {
      BinaryBP(first.op.kind);
    }
  }

  lemma {:induction false} GrowByOperator(reals: Numerals, left: Syntax, toks: Tokens, i: nat, minBP: int)
    returns (s: Syntax)
    requires i + |Yield(left)| < |toks| && LeftBP(toks[i + |Yield(left)|].lex.kind) >= minBP
    requires IsBinary(toks[i + |Yield(left)|].lex.kind)
    requires WellBound(left) && At(toks, i, Yield(left)) && Level(left) > TERNARY_BP
    requires Follows(left, toks[i + |Yield(left)|].lex.kind)
    requires ParseInfix(reals, toks, i + |Yield(left)|, Meaning(left), minBP).Ok?
    ensures Grows(reals, left, s, toks, i, minBP)
    decreases |toks| - (i + |Yield(left)|), 2
  {
    hide ParsePrefix, ParseInfix, ParseExpr, ParseChain, At, Terminated, Yield, WellBound, Meaning, Level, Follows;
    var j := i + |Yield(left)|;
    var t := toks[j].lex.kind;
    InfixCases(reals, toks, j, Meaning(left), minBP);
    BinaryBP(t);
    var right := ExprSound(reals, toks, j + 1, LeftBP(t) + 1);
    s := Infix(left, toks[j].lex, right);
    InfixBuilt(left, toks[j].lex, right);
    InfixYield(left, right, toks, i);
  }

  lemma InfixBuilt(left: Syntax, op: Lexeme, right: Syntax)
    requires WellBound(left) && WellBound(right) && IsBinary(op.kind)
    requires Level(left) > TERNARY_BP && Follows(left, op.kind) && Level(right) > LeftBP(op.kind)
    ensures var s := Infix(left, op, right);
      && WellBound(s) && Meaning(s) == ExprBinary(Meaning(left), InfixOp(op.kind), Meaning(right))
      && Level(s) == LeftBP(op.kind) > TERNARY_BP
      && forall t :: LeftBP(t) <= LeftBP(op.kind) ==> Follows(s, t)
  {
    BinaryBP(op.kind);
    LevelOfLeft(left, op.kind);
  }

  lemma LevelOfLeft(left: Syntax, t: TokenType)
    requires WellBound(left) && Level(left) > TERNARY_BP && Follows(left, t) && IsBinary(t)
    ensures Level(left) >= LeftBP(t)
  {
    BinaryBP(t);
  }

  lemma AssignYield(l: Syntax, r: Syntax, toks: Tokens, i: nat)
    requires var j := i + |Yield(l)|; At(toks, i, Yield(l)) && j < |toks| && At(toks, j + 1, Yield(r))
    ensures var s := Assign(l, toks[i + |Yield(l)|].lex, r);
      At(toks, i, Yield(s)) && |Yield(s)| == |Yield(l)| + 1 + |Yield(r)|
  {
    hide At, Terminated;
    AtJoin(toks, i, Yield(l), toks[i + |Yield(l)|].lex, Yield(r));
  }

  lemma InfixYield(l: Syntax, r: Syntax, toks: Tokens, i: nat)
    requires var j := i + |Yield(l)|; At(toks, i, Yield(l)) && j < |toks| && At(toks, j + 1, Yield(r))
    ensures var s := Infix(l, toks[i + |Yield(l)|].lex, r);
      At(toks, i, Yield(s)) && |Yield(s)| == |Yield(l)| + 1 + |Yield(r)|
  {
    hide At, Terminated;
    AtJoin(toks, i, Yield(l), toks[i + |Yield(l)|].lex, Yield(r));
  }

  lemma ChainYield(first: Syntax, links: Links, toks: Tokens, i: nat)
    requires At(toks, i, Yield(first)) && At(toks, i + |Yield(first)|, YieldLinks(links))
    ensures var s := Chain(first, links);
      At(toks, i, Yield(s)) && |Yield(s)| == |Yield(first)| + |YieldLinks(links)|
  {
    hide At, Terminated;
    AtConcat(toks, i, Yield(first), YieldLinks(links));
  }

  lemma {:induction false} AssignSound(reals: Numerals, left: Syntax, toks: Tokens, i: nat, minBP: int)
    returns (s: Syntax)
    requires i + |Yield(left)| < |toks| && LeftBP(toks[i + |Yield(left)|].lex.kind) >= minBP
    requires WellBound(left) && At(toks, i, Yield(left)) && Level(left) > TERNARY_BP
    requires IsAssignment(toks[i + |Yield(left)|].lex.kind)
    requires ParseInfix(reals, toks, i + |Yield(left)|, Meaning(left), minBP).Ok?
    ensures Explains(s, toks, i, ParseInfix(reals, toks, i + |Yield(left)|, Meaning(left), minBP).value)
    ensures Level(s) == ASSIGNMENT_BP >= minBP
    ensures LeftBP(toks[i + |Yield(s)|].lex.kind) <= TERNARY_BP
    decreases |toks| - (i + |Yield(left)|), 2
  {
    hide ParsePrefix, ParseInfix, ParseExpr, ParseChain, At, Terminated, Yield, WellBound, Meaning, Level;
    var j := i + |Yield(left)|;
    InfixCases(reals, toks, j, Meaning(left), minBP);
    var source := ExprSound(reals, toks, j + 1, 0);
    s := Assign(left, toks[j].lex, source);
    AssignYield(left, source, toks, i);
    AssignBuilt(s);
  }

  lemma AssignBuilt(s: Syntax)
    requires s.Assign? && IsAssignment(s.op.kind) && WellBound(s.target) && WellBound(s.source)
    requires Level(s.target) > TERNARY_BP
    ensures WellBound(s) && Level(s) == ASSIGNMENT_BP && LeftBP(s.op.kind) == ASSIGNMENT_BP
    ensures Meaning(s) == ExprAssignment(Meaning(s.target), AssignmentOp(s.op.kind), Meaning(s.source))
  {
  }

  lemma {:induction false} TernarySound(reals: Numerals, c: Syntax, toks: Tokens, i: nat, minBP: int)
    returns (s: Syntax)
    requires i + |Yield(c)| < |toks| && LeftBP(toks[i + |Yield(c)|].lex.kind) >= minBP
    requires WellBound(c) && At(toks, i, Yield(c)) && Level(c) > TERNARY_BP
    requires toks[i + |Yield(c)|].lex.kind == Question
    requires ParseInfix(reals, toks, i + |Yield(c)|, Meaning(c), minBP).Ok?
    ensures Explains(s, toks, i, ParseInfix(reals, toks, i + |Yield(c)|, Meaning(c), minBP).value)
    ensures Level(s) == TERNARY_BP >= minBP
    ensures LeftBP(toks[i + |Yield(s)|].lex.kind) <= TERNARY_BP
    decreases |toks| - (i + |Yield(c)|), 1
  {
    hide ParsePrefix, ParseInfix, ParseExpr, ParseChain, At, Terminated, Yield, WellBound, Meaning, Level;
    var j := i + |Yield(c)|;
    InfixCases(reals, toks, j, Meaning(c), minBP);
    var t := ExprSound(reals, toks, j + 1, 0);
    var m := j + 1 + |Yield(t)|;
    var e := ExprSound(reals, toks, m + 1, TERNARY_BP);
    s := Ternary(c, toks[j].lex, t, toks[m].lex, e);
    TernaryYield(c, t, e, toks, i);
    TernaryBuilt(s);
  }

  lemma TernaryYield(c: Syntax, t: Syntax, e: Syntax, toks: Tokens, i: nat)
    requires var j := i + |Yield(c)|; var m := j + 1 + |Yield(t)|;
      && At(toks, i, Yield(c)) && j < |toks| && At(toks, j + 1, Yield(t)) && m < |toks| && At(toks, m + 1, Yield(e))
    ensures var j := i + |Yield(c)|; var m := j + 1 + |Yield(t)|;
      var s := Ternary(c, toks[j].lex, t, toks[m].lex, e);
      At(toks, i, Yield(s)) && |Yield(s)| == |Yield(c)| + 1 + |Yield(t)| + 1 + |Yield(e)|
  {
    hide At, Terminated;
    var j := i + |Yield(c)|;
    var m := j + 1 + |Yield(t)|;
    AtJoin(toks, j + 1, Yield(t), toks[m].lex, Yield(e));
    AtJoin(toks, i, Yield(c), toks[j].lex, Yield(t) + ([toks[m].lex] + Yield(e)));
  }

  lemma TernaryBuilt(s: Syntax)
    requires s.Ternary? && s.question.kind == Question && s.colon.kind == Colon
    requires WellBound(s.condition) && WellBound(s.thenPart) && WellBound(s.elsePart)
    requires Level(s.condition) > TERNARY_BP && Level(s.elsePart) >= TERNARY_BP
    ensures WellBound(s) && Level(s) == TERNARY_BP
    ensures Meaning(s) == ExprIf(Meaning(s.condition), Meaning(s.thenPart), Meaning(s.elsePart))
  {
  }

  lemma {:induction false} ChainSound(reals: Numerals, toks: Tokens, i: nat, operands: seq<Expr>, ops: seq<CompareOp>)
    returns (k: Links)
    requires i < |toks| && ParseChain(reals, toks, i, operands, ops).Ok?
    ensures WellBoundLinks(k) && At(toks, i, YieldLinks(k)) && i + |YieldLinks(k)| < |toks|
    ensures IsComparison(toks[i].lex.kind) ==> k.Link?
    ensures ParseChain(reals, toks, i, operands, ops).value
         == Parsed(ExprComparison(operands + LinkOperands(k), ops + LinkOps(k)), i + |YieldLinks(k)|)
    ensures !IsComparison(toks[i + |YieldLinks(k)|].lex.kind)
    ensures k.Link? ==> LeftBP(toks[i + |YieldLinks(k)|].lex.kind) <= COMPARISON_BP
    decreases |toks| - i, 1
  {
    hide ParsePrefix, ParseInfix, ParseExpr, At, Terminated, Yield, WellBound, Meaning, Level;
    var l := toks[i].lex;
    if !IsComparison(l.kind) {
      k := Last;
      AtNone(toks, i);
      assert operands + [] == operands && ops + [] == ops;
    } else {
      var operand := ExprSound(reals, toks, i + 1, COMPARISON_BP + 1);
      var more := ChainSound(reals, toks, i + 1 + |Yield(operand)|, operands + [Meaning(operand)],
        ops + [ComparisonOp(l.kind)]);
      k := Link(l, operand, more);
      AtConcat(toks, i + 1, Yield(operand), YieldLinks(more));
      AtCons(toks, i, l, Yield(operand) + YieldLinks(more));
      assert operands + [Meaning(operand)] + LinkOperands(more) == operands + LinkOperands(k);
      assert ops + [ComparisonOp(l.kind)] + LinkOps(more) == ops + LinkOps(k);
    }
  }

  // ---------------------------------------------------------------- real literals

  lemma {:induction false} PrefixConverts(reals: Numerals, toks: Tokens, i: nat)
    requires i < |toks| && ParsePrefix(reals, toks, i).Ok?
    ensures Converts(reals, ParsePrefix(reals, toks, i).value.tree)
    decreases |toks| - i, 0
  {
    hide ParseExpr, ParseInfix, ParseChain, Terminated;
    var t := toks[i].lex.kind;
    if IsPrefix(t) {
      ExprConverts(reals, toks, i + 1, PREFIX_BP);
    } else if t == LeftParen {
      ExprConverts(reals, toks, i + 1, 0);
    }
  }

  lemma {:induction false} ExprConverts(reals: Numerals, toks: Tokens, i: nat, minBP: int)
    requires i < |toks| && ParseExpr(reals, toks, i, minBP).Ok?
    ensures Converts(reals, ParseExpr(reals, toks, i, minBP).value.tree)
    decreases |toks| - i, 1
  {
    hide ParsePrefix, ParseInfix, ParseChain, Terminated, Converts;
    PrefixConverts(reals, toks, i);
    var first := ParsePrefix(reals, toks, i).value;
    InfixConverts(reals, toks, first.next, first.tree, minBP);
  }

  /** Every real literal that gets into the tree on the left has been converted. */
  lemma {:induction false} InfixConverts(reals: Numerals, toks: Tokens, i: nat, left: Expr, minBP: int)
    requires i < |toks| && Converts(reals, left) && ParseInfix(reals, toks, i, left, minBP).Ok?
    ensures Converts(reals, ParseInfix(reals, toks, i, left, minBP).value.tree)
    decreases |toks| - i, 2
  {
    hide ParsePrefix, ParseInfix, ParseExpr, ParseChain, Terminated, LeftBP;
    var t := toks[i].lex.kind;
    InfixCases(reals, toks, i, left, minBP);
    if LeftBP(t) < 0 || LeftBP(t) < minBP {
    } else if IsAssignment(t) {
      ExprConverts(reals, toks, i + 1, 0);
    } else if t == Question {
      ExprConverts(reals, toks, i + 1, 0);
      ExprConverts(reals, toks, ParseExpr(reals, toks, i + 1, 0).value.next + 1, TERNARY_BP);
    } else if IsComparison(t) {
      ChainConverts(reals, toks, i, [left], []);
      var chain := ParseChain(reals, toks, i, [left], []).value;
      InfixConverts(reals, toks, chain.next, chain.tree, minBP);
    } else {
      ExprConverts(reals, toks, i + 1, LeftBP(t) + 1);
      var right := ParseExpr(reals, toks, i + 1, LeftBP(t) + 1).value;
      InfixConverts(reals, toks, right.next, ExprBinary(left, InfixOp(t), right.tree), minBP);
    }
  }

  lemma {:induction false} ChainConverts(reals: Numerals, toks: Tokens, i: nat, operands: seq<Expr>,
          ops: seq<CompareOp>)
    requires i < |toks| && AllConvert(reals, operands) && ParseChain(reals, toks, i, operands, ops).Ok?
    ensures Converts(reals, ParseChain(reals, toks, i, operands, ops).value.tree)
    decreases |toks| - i, 1
  {
    hide ParsePrefix, ParseInfix, ParseExpr, Terminated;
    var t := toks[i].lex.kind;
    if IsComparison(t) {
      ExprConverts(reals, toks, i + 1, COMPARISON_BP + 1);
      var operand := ParseExpr(reals, toks, i + 1, COMPARISON_BP + 1).value;
      ChainConverts(reals, toks, operand.next, operands + [operand.tree], ops + [ComparisonOp(t)]);
    }
  }

  lemma {:induction false} StatementsConvert(reals: Numerals, toks: Tokens, i: nat)
    requires i < |toks| && ParseAll(reals, toks, i).Ok?
    ensures AllConvert(reals, ParseAll(reals, toks, i).value)
    decreases |toks| - i
  {
    hide ParseExpr, Converts, Terminated;
    if toks[i].lex.kind != EndOfInput {
      ExprConverts(reals, toks, i, 0);
      StatementsConvert(reals, toks, SkipSemicolons(toks, ParseExpr(reals, toks, i, 0).value.next));
    }
  }

  // ---------------------------------------------------------------- whole scripts

  /** The statements of a script, each with the semicolons after it. */
  datatype Script = Done | Statement(s: Syntax, semicolons: seq<Lexeme>, rest: Script)

  function YieldScript(sc: Script): seq<Lexeme> {
    match sc
    case Done => []
    case Statement(s, semis, rest) => Yield(s) + (semis + YieldScript(rest))
  }

  function FirstLexeme(s: Syntax): Lexeme {
    match s
    case Atom(l) => l
    case Group(o, _, _) => o
    case Prefix(op, _) => op
    case Infix(l, _, _) => FirstLexeme(l)
    case Chain(first, _) => FirstLexeme(first)
    case Ternary(c, _, _, _, _) => FirstLexeme(c)
    case Assign(t, _, _) => FirstLexeme(t)
  }

  /** Semicolons may be left out, except in front of a statement that starts with a minus. */
  predicate WellBoundScript(sc: Script) {
    match sc
    case Done => true
    case Statement(s, semis, rest) =>
      && WellBound(s) && WellBoundScript(rest)
      && (forall k :: 0 <= k < |semis| ==> semis[k].kind == Semicolon)
      && (semis == [] && rest.Statement? ==> FirstLexeme(rest.s).kind != Minus)
  }

  function ScriptMeaning(sc: Script): seq<Expr>
    requires WellBoundScript(sc)
  {
    match sc
    case Done => []
    case Statement(s, _, rest) => [Meaning(s)] + ScriptMeaning(rest)
  }

  /** toks is the script sc, up to the final EndOfInput. */
  ghost predicate IsScript(toks: Tokens, i: nat, sc: Script) {
    WellBoundScript(sc) && At(toks, i, YieldScript(sc)) && i + |YieldScript(sc)| == |toks| - 1
  }

  lemma {:induction false} YieldStarts(s: Syntax)
    requires WellBound(s)
    ensures Yield(s) != [] && Yield(s)[0] == FirstLexeme(s)
    ensures StartsStatement(FirstLexeme(s).kind)
  {
    match s
    case Infix(l, _, _) => YieldStarts(l);
    case Chain(first, _) => YieldStarts(first);
    case Ternary(c, _, _, _, _) => YieldStarts(c);
    case Assign(t, _, _) => YieldStarts(t);
    case _ =>
  }

  lemma {:induction false} SkipsSemicolons(toks: Tokens, i: nat, semis: seq<Lexeme>)
    requires At(toks, i, semis) && i + |semis| < |toks|
    requires forall k :: 0 <= k < |semis| ==> semis[k].kind == Semicolon
    requires toks[i + |semis|].lex.kind != Semicolon
    ensures SkipSemicolons(toks, i) == i + |semis|
    decreases |semis|
  {
    if semis != [] {
      assert semis == [semis[0]] + semis[1..];
      AtHead(toks, i, semis[0], semis[1..]);
      SkipsSemicolons(toks, i + 1, semis[1..]);
    }
  }

  lemma {:induction false} ScriptComplete(reals: Numerals, sc: Script, toks: Tokens, i: nat)
    requires IsScript(toks, i, sc) && AllConvert(reals, ScriptMeaning(sc))
    ensures ParseAll(reals, toks, i) == Ok(ScriptMeaning(sc))
    decreases sc
  {
    hide Converts, AllConvert, ParseExpr, At, Yield, Meaning, WellBound, LeftBP, FirstLexeme;
    match sc
    case Done =>
    case Statement(s, semis, rest) =>
      var j := i + |Yield(s)|;
      AtConcat(toks, i, Yield(s), semis + YieldScript(rest));
      AtConcat(toks, j, semis, YieldScript(rest));
      NextStatement(sc, toks, i);
      LevelBound(s);
      ConvertsHead(reals, Meaning(s), ScriptMeaning(rest));
      ReadsAll(reals, s, toks, i, 0);
      SkipsSemicolons(toks, j, semis);
      ScriptComplete(reals, rest, toks, j + |semis|);
  }

  lemma LevelBound(s: Syntax)
    requires WellBound(s)
    ensures ASSIGNMENT_BP <= Level(s) <= PREFIX_BP
  {
  }

  predicate StartsStatement(t: TokenType) {
    IsOperand(t) || t == LeftParen || IsPrefix(t)
  }

  lemma StatementStart(toks: Tokens, i: nat, sc: Script)
    requires IsScript(toks, i, sc)
    ensures if sc.Done? then toks[i].lex.kind == EndOfInput
            else StartsStatement(toks[i].lex.kind) && toks[i].lex == FirstLexeme(sc.s)
  {
    hide Yield, WellBound, FirstLexeme;
    if sc.Statement? {
      YieldStarts(sc.s);
      assert YieldScript(sc)[0] == FirstLexeme(sc.s);
      assert toks[i + 0].lex == YieldScript(sc)[0];
    }
  }

  lemma StarterBP(t: TokenType)
    requires t == EndOfInput || t == Semicolon || (StartsStatement(t) && t != Minus)
    ensures LeftBP(t) < 0
  {
  }

  /** What comes after the first statement of a script, and after its semicolons. */
  lemma NextStatement(sc: Script, toks: Tokens, i: nat)
    requires IsScript(toks, i, sc) && sc.Statement?
    ensures var j := i + |Yield(sc.s)|;
      && i < |toks| - 1
      && j + |sc.semicolons| < |toks| && LeftBP(toks[j].lex.kind) < 0
      && toks[j + |sc.semicolons|].lex.kind != Semicolon
  {
    hide Yield, Meaning, WellBound, LeftBP, FirstLexeme, Terminated, At;
    var semis, tail := sc.semicolons, YieldScript(sc.rest);
    var j := i + |Yield(sc.s)|;
    YieldStarts(sc.s);
    AtConcat(toks, i, Yield(sc.s), semis + tail);
    AtConcat(toks, j, semis, tail);
    StatementStart(toks, j + |semis|, sc.rest);
    if semis != [] {
      assert semis == [semis[0]] + semis[1..];
      AtHead(toks, j, semis[0], semis[1..]);
    }
    StarterBP(toks[j].lex.kind);
  }

  lemma {:induction false} ScriptSound(reals: Numerals, toks: Tokens, i: nat) returns (sc: Script)
    requires i < |toks| && ParseAll(reals, toks, i).Ok?
    ensures IsScript(toks, i, sc) && ParseAll(reals, toks, i) == Ok(ScriptMeaning(sc))
    decreases |toks| - i
  {
    hide ParseExpr, At, Yield, Meaning, WellBound, LeftBP, FirstLexeme;
    if toks[i].lex.kind == EndOfInput {
      sc := Done;
      AtNone(toks, i);
    } else {
      var s := ExprSound(reals, toks, i, 0);
      var j := i + |Yield(s)|;
      var semis := SemicolonRun(toks, j);
      var rest := ScriptSound(reals, toks, j + |semis|);
      sc := Statement(s, semis, rest);
      if semis == [] && rest.Statement? {
        StatementStart(toks, j, rest);
        assert FirstLexeme(rest.s).kind != Minus by { MinusBP(); }
      }
      AtConcat(toks, j, semis, YieldScript(rest));
      AtConcat(toks, i, Yield(s), semis + YieldScript(rest));
    }
  }

  lemma {:induction false} SemicolonRun(toks: Tokens, i: nat) returns (semis: seq<Lexeme>)
    requires i < |toks|
    ensures At(toks, i, semis) && SkipSemicolons(toks, i) == i + |semis|
    ensures forall k :: 0 <= k < |semis| ==> semis[k].kind == Semicolon
    decreases |toks| - i
  {
    semis := [];
    if toks[i].lex.kind == Semicolon {
      var more := SemicolonRun(toks, i + 1);
      AtCons(toks, i, toks[i].lex, more);
      semis := [toks[i].lex] + more;
    }
  }

  lemma MinusBP()
    ensures LeftBP(Minus) > TERNARY_BP
  {
  }

  /** The parser accepts exactly the scripts of the grammar whose real literals all convert, and
      returns what they mean. */
  lemma ParserIsGrammar(reals: Numerals, toks: Tokens, stmts: seq<Expr>)
    ensures ParseAll(reals, toks, 0) == Ok(stmts)
       <==> AllConvert(reals, stmts) && exists sc :: IsScript(toks, 0, sc) && ScriptMeaning(sc) == stmts
  {
    hide ParseAll, At, AllConvert;
    if ParseAll(reals, toks, 0) == Ok(stmts) {
      StatementsConvert(reals, toks, 0);
      var sc := ScriptSound(reals, toks, 0);
      assert IsScript(toks, 0, sc) && ScriptMeaning(sc) == stmts;
    }
    if sc :| AllConvert(reals, stmts) && IsScript(toks, 0, sc) && ScriptMeaning(sc) == stmts {
      ScriptComplete(reals, sc, toks, 0);
    }
  }

  lemma {:induction false} EveryTextConverts(reals: Numerals, e: Expr)
    requires forall r: string :: r in reals
    ensures Converts(reals, e)
  {
    match e
    case ExprLiteral(_) | ExprName(_) =>
    case ExprUnary(_, rhs) => EveryTextConverts(reals, rhs);
    case ExprBinary(l, _, r) =>
      EveryTextConverts(reals, l);
      EveryTextConverts(reals, r);
    case ExprComparison(operands, _) =>
      forall k | 0 <= k < |operands| ensures Converts(reals, operands[k]) {
        EveryTextConverts(reals, operands[k]);
      }
    case ExprIf(c, t, f) =>
      EveryTextConverts(reals, c);
      EveryTextConverts(reals, t);
      EveryTextConverts(reals, f);
    case ExprAssignment(t, _, s) =>
      EveryTextConverts(reals, t);
      EveryTextConverts(reals, s);
  }

  /** The grammar is unambiguous: all readings of a token list mean the same. */
  lemma Unambiguous(toks: Tokens, a: Script, b: Script)
    requires IsScript(toks, 0, a) && IsScript(toks, 0, b)
    ensures ScriptMeaning(a) == ScriptMeaning(b)
  {
    hide ParseAll, Converts;
    var reals: Numerals := iset r: string | 0 <= |r|;
    forall e ensures Converts(reals, e) {
      EveryTextConverts(reals, e);
    }
    ScriptComplete(reals, a, toks, 0);
    ScriptComplete(reals, b, toks, 0);
  }
}
