/** The precedence of the operators, as the language describes it, stated without the binding powers
    of the parser: ten tiers, the grammar that respects them, and what follows for operators that
    meet. */
module ScriptPrecedence {
  import opened ScriptTokens
  import opened ScriptParser
  import opened ScriptGrammar

  /** The tiers of the infix operators, weakest first; 0 for tokens that are none. */
  function Tier(t: TokenType): nat {
    match t
    case ColonEqual | Equal | PlusEqual | MinusEqual | StarEqual | SlashEqual => 1
    case Question => 2
    case PipePipe => 3
    case AmpAmp => 4
    case EqualEqual | BangEqual | Less | Greater | LessEqual | GreaterEqual => 5
    case Pipe | Caret => 6
    case Ampersand => 7
    case Plus | Minus | DotDot => 8
    case Star | Slash => 9
    case _ => 0
  }

  /** A prefix operator binds tighter than any of them. */
  const UNARY_TIER := 10

  predicate JoinsTwo(t: TokenType) {
    3 <= Tier(t) <= 9 && Tier(t) != 5
  }

  predicate Compares(t: TokenType) {
    Tier(t) == 5
  }

  predicate Assigns(t: TokenType) {
    Tier(t) == 1
  }

  predicate Stands(t: TokenType) {
    t == Boolean || t == Integer || t == Real || t == String || t == Identifier
  }

  predicate Leads(t: TokenType) {
    t == Minus || t == Tilde || t == Bang
  }

  function TreeTier(s: Syntax): nat {
    match s
    case Atom(_) | Group(_, _, _) | Prefix(_, _) => UNARY_TIER
    case Infix(_, op, _) => Tier(op.kind)
    case Chain(_, _) => 5
    case Ternary(_, _, _, _, _) => 2
    case Assign(_, _, _) => 1
  }

  /** Operators of one tier nest to the left, those of a higher tier go below those of a lower one;
      a chain has no chain for an operand; ternaries and assignments nest to the right, and neither
      is the condition or the target of one. */
  predicate InOrder(s: Syntax) {
    match s
    case Atom(l) => Stands(l.kind)
    case Group(o, inner, c) => o.kind == LeftParen && c.kind == RightParen && InOrder(inner)
    case Prefix(op, rhs) => Leads(op.kind) && InOrder(rhs) && TreeTier(rhs) >= UNARY_TIER
    case Infix(l, op, r) =>
      && JoinsTwo(op.kind) && InOrder(l) && InOrder(r)
      && TreeTier(l) >= Tier(op.kind) && TreeTier(r) > Tier(op.kind)
    case Chain(first, links) => InOrder(first) && TreeTier(first) > 5 && links.Link? && LinksInOrder(links)
    case Ternary(c, q, t, k, e) =>
      && q.kind == Question && k.kind == Colon && InOrder(c) && InOrder(t) && InOrder(e)
      && TreeTier(c) > 2 && TreeTier(e) >= 2
    case Assign(t, op, e) => Assigns(op.kind) && InOrder(t) && InOrder(e) && TreeTier(t) > 2
  }

  predicate LinksInOrder(k: Links) {
    match k
    case Last => true
    case Link(op, operand, more) =>
      Compares(op.kind) && InOrder(operand) && TreeTier(operand) > 5 && LinksInOrder(more)
  }

  // ---------------------------------------------------------------- the parser respects the tiers

  lemma KindsAgree(t: TokenType)
    ensures IsOperand(t) == Stands(t) && IsPrefix(t) == Leads(t) && IsBinary(t) == JoinsTwo(t)
    ensures IsComparison(t) == Compares(t) && IsAssignment(t) == Assigns(t)
    ensures JoinsTwo(t) ==> LeftBP(t) == 2 * Tier(t)
  {
    hide IsOperand, IsPrefix, IsBinary, IsAssignment, IsComparison, Stands, Leads, JoinsTwo, Assigns, Compares;
    hide LeftBP, Tier;
    OperandsAgree(t);
    JoinersAgree(t);
    OthersAgree(t);
  }

  lemma OperandsAgree(t: TokenType)
    ensures IsOperand(t) == Stands(t) && IsPrefix(t) == Leads(t)
  {
  }

  lemma JoinersAgree(t: TokenType)
    ensures IsBinary(t) == JoinsTwo(t) && (JoinsTwo(t) ==> LeftBP(t) == 2 * Tier(t))
  {
  }

  lemma OthersAgree(t: TokenType)
    ensures IsComparison(t) == Compares(t) && IsAssignment(t) == Assigns(t)
  {
  }

  lemma {:induction false} OrderIsBinding(s: Syntax)
    ensures InOrder(s) <==> WellBound(s)
    ensures InOrder(s) ==> Level(s) == 2 * TreeTier(s)
    decreases s
  {
    hide IsOperand, IsPrefix, IsBinary, IsAssignment, IsComparison, Stands, Leads, JoinsTwo, Assigns, Compares;
    hide LeftBP, Tier;
    match s
    case Atom(l) => KindsAgree(l.kind);
    case Group(_, inner, _) => OrderIsBinding(inner);
    case Prefix(op, rhs) =>
      KindsAgree(op.kind);
      OrderIsBinding(rhs);
    case Infix(l, op, r) =>
      KindsAgree(op.kind);
      OrderIsBinding(l);
      OrderIsBinding(r);
    case Chain(first, links) =>
      OrderIsBinding(first);
      LinksAreBinding(links);
    case Ternary(c, _, t, _, e) =>
      OrderIsBinding(c);
      OrderIsBinding(t);
      OrderIsBinding(e);
    case Assign(t, op, e) =>
      KindsAgree(op.kind);
      OrderIsBinding(t);
      OrderIsBinding(e);
  }

  lemma {:induction false} LinksAreBinding(k: Links)
    ensures LinksInOrder(k) <==> WellBoundLinks(k)
    decreases k
  {
    hide IsComparison, Compares, InOrder, WellBound, TreeTier, Level;
    if k.Link? {
      KindsAgree(k.op.kind);
      OrderIsBinding(k.operand);
      LinksAreBinding(k.more);
    }
  }

  /** Statements, each with any semicolons after it; without one, the next must not begin with a
      minus. */
  predicate ScriptInOrder(sc: Script) {
    match sc
    case Done => true
    case Statement(s, semis, rest) =>
      && InOrder(s) && ScriptInOrder(rest)
      && (forall k :: 0 <= k < |semis| ==> semis[k].kind == Semicolon)
      && (semis == [] && rest.Statement? ==> FirstLexeme(rest.s).kind != Minus)
  }

  lemma {:induction false} ScriptIsBinding(sc: Script)
    ensures ScriptInOrder(sc) <==> WellBoundScript(sc)
  {
    hide InOrder, WellBound;
    if sc.Statement? {
      OrderIsBinding(sc.s);
      ScriptIsBinding(sc.rest);
    }
  }

  /** The tokens are those of the ordered script sc, and that means the statements. */
  ghost predicate OrderedMeans(toks: Tokens, sc: Script, stmts: seq<Expr>) {
    && ScriptInOrder(sc) && At(toks, 0, YieldScript(sc)) && |YieldScript(sc)| == |toks| - 1
    && (ScriptIsBinding(sc); ScriptMeaning(sc) == stmts)
  }

  /** The parser accepts exactly the scripts in which the operators stand in the order of their tiers,
      and returns what they mean. */
  lemma ParserFollowsTiers(reals: Numerals, toks: Tokens, stmts: seq<Expr>)
    ensures ParseAll(reals, toks, 0) == Ok(stmts)
       <==> AllConvert(reals, stmts) && exists sc :: OrderedMeans(toks, sc, stmts)
  {
    hide ParseAll, At, AllConvert, Terminated;
    ParserIsGrammar(reals, toks, stmts);
    if sc :| IsScript(toks, 0, sc) && ScriptMeaning(sc) == stmts {
      ScriptIsBinding(sc);
      assert OrderedMeans(toks, sc, stmts);
    }
    if sc :| OrderedMeans(toks, sc, stmts) {
      ScriptIsBinding(sc);
      assert IsScript(toks, 0, sc);
    }
  }

  // ---------------------------------------------------------------- operators that meet

  /** The tokens are these, and then the end. */
  ghost predicate Reads(toks: Tokens, ls: seq<Lexeme>) {
    |toks| == |ls| + 1 && forall k :: 0 <= k < |ls| ==> toks[k].lex == ls[k]
  }

  lemma OneStatement(reals: Numerals, toks: Tokens, s: Syntax)
    requires InOrder(s) && Reads(toks, Yield(s))
    ensures WellBound(s) && (Converts(reals, Meaning(s)) ==> ParseAll(reals, toks, 0) == Ok([Meaning(s)]))
  {
    hide ParseAll, Converts, Terminated, InOrder, WellBound, Meaning, Yield;
    OrderIsBinding(s);
    var sc := Statement(s, [], Done);
    assert YieldScript(sc) == Yield(s) + ([] + []) == Yield(s);
    assert At(toks, 0, YieldScript(sc));
    assert WellBoundScript(sc);
    assert IsScript(toks, 0, sc);
    assert ScriptMeaning(sc) == [Meaning(s)] + ScriptMeaning(Done) == [Meaning(s)];
    if Converts(reals, Meaning(s)) {
      ScriptComplete(reals, sc, toks, 0);
    }
  }

  predicate IsOperandToken(reals: Numerals, l: Lexeme) {
    Stands(l.kind) && (l.kind == Real ==> l.text in reals)
  }

  /** What an operand token means by itself. */
  function Leaf(l: Lexeme): Expr
    requires Stands(l.kind)
  {
    OperandExpr(l)
  }

  function Join(a: Expr, o: Lexeme, b: Expr): Expr
    requires JoinsTwo(o.kind)
  {
    ExprBinary(a, InfixOp(o.kind), b)
  }

  function Compare(a: Expr, o: Lexeme, b: Expr): Expr
    requires Compares(o.kind)
  {
    ExprComparison([a, b], [ComparisonOp(o.kind)])
  }

  function Set(a: Expr, o: Lexeme, b: Expr): Expr
    requires Assigns(o.kind)
  {
    ExprAssignment(a, AssignmentOp(o.kind), b)
  }

  /** The tree of an operator between two trees. */
  function Two(a: Syntax, o: Lexeme, b: Syntax): Syntax {
    Infix(a, o, b)
  }

  function Pair(a: Syntax, o: Lexeme, b: Syntax): Syntax {
    Chain(a, Link(o, b, Last))
  }

  lemma AtomIs(reals: Numerals, l: Lexeme)
    requires IsOperandToken(reals, l)
    ensures var s := Atom(l);
      && InOrder(s) && WellBound(s) && TreeTier(s) == UNARY_TIER && Yield(s) == [l] && Meaning(s) == Leaf(l)
      && Converts(reals, Leaf(l))
  {
    hide IntegerValue;
  }

  /** What a tree with an operator between two trees is, given what these are. */
  lemma TwoIs(reals: Numerals, a: Syntax, o: Lexeme, b: Syntax)
    requires InOrder(a) && InOrder(b) && WellBound(a) && WellBound(b) && JoinsTwo(o.kind)
    requires TreeTier(a) >= Tier(o.kind) && TreeTier(b) > Tier(o.kind)
    requires Converts(reals, Meaning(a)) && Converts(reals, Meaning(b))
    ensures var s := Two(a, o, b);
      && InOrder(s) && WellBound(s) && TreeTier(s) == Tier(o.kind) && Yield(s) == Yield(a) + ([o] + Yield(b))
      && Meaning(s) == Join(Meaning(a), o, Meaning(b)) && Converts(reals, Meaning(s))
  {
    hide Stands, Leads, Assigns, Compares;
    OrderIsBinding(Two(a, o, b));
  }

  /** The links of a chain, one by one. */
  lemma LinkIs(o: Lexeme, b: Syntax, more: Links)
    requires InOrder(b) && WellBound(b) && TreeTier(b) > 5 && Compares(o.kind)
    requires LinksInOrder(more) && WellBoundLinks(more)
    ensures var k := Link(o, b, more);
      && LinksInOrder(k) && WellBoundLinks(k)
      && YieldLinks(k) == [o] + (Yield(b) + YieldLinks(more))
      && LinkOperands(k) == [Meaning(b)] + LinkOperands(more) && LinkOps(k) == [ComparisonOp(o.kind)] + LinkOps(more)
  {
    hide InOrder, WellBound, Meaning, Yield, TreeTier, ComparisonOp, Compares;
    LinksAreBinding(Link(o, b, more));
  }

  lemma NoLink()
    ensures LinksInOrder(Last) && WellBoundLinks(Last)
    ensures YieldLinks(Last) == [] && LinkOperands(Last) == [] && LinkOps(Last) == []
  {
  }

  lemma ChainIs(a: Syntax, k: Links)
    requires InOrder(a) && WellBound(a) && TreeTier(a) > 5 && k.Link? && LinksInOrder(k) && WellBoundLinks(k)
    ensures var s := Chain(a, k);
      && InOrder(s) && WellBound(s) && TreeTier(s) == 5 && Yield(s) == Yield(a) + YieldLinks(k)
      && Meaning(s) == ExprComparison([Meaning(a)] + LinkOperands(k), LinkOps(k))
  {
    hide LinksInOrder, WellBoundLinks, YieldLinks, LinkOperands, LinkOps;
    OrderIsBinding(Chain(a, k));
  }

  lemma PairIs(reals: Numerals, a: Syntax, o: Lexeme, b: Syntax)
    requires InOrder(a) && InOrder(b) && WellBound(a) && WellBound(b) && Compares(o.kind)
    requires TreeTier(a) > 5 && TreeTier(b) > 5
    requires Converts(reals, Meaning(a)) && Converts(reals, Meaning(b))
    ensures var s := Pair(a, o, b);
      && InOrder(s) && WellBound(s) && TreeTier(s) == 5 && Yield(s) == Yield(a) + ([o] + Yield(b))
      && Meaning(s) == Compare(Meaning(a), o, Meaning(b)) && Converts(reals, Meaning(s))
  {
    hide InOrder, WellBound, Meaning, Yield, TreeTier, LinksInOrder, WellBoundLinks, YieldLinks, LinkOperands, LinkOps;
    hide Compares, ComparisonOp, Converts, Tier;
    NoLink();
    KindsAgree(o.kind);
    LinkIs(o, b, Last);
    ChainIs(a, Link(o, b, Last));
    assert Yield(b) + [] == Yield(b);
    assert [Meaning(a)] + ([Meaning(b)] + []) == [Meaning(a), Meaning(b)];
    assert [ComparisonOp(o.kind)] + [] == [ComparisonOp(o.kind)];
    ConvertsChain(reals, [Meaning(a), Meaning(b)], [ComparisonOp(o.kind)]);
  }

  lemma ChoiceIs(reals: Numerals, c: Syntax, q: Lexeme, a: Syntax, k: Lexeme, b: Syntax)
    requires InOrder(c) && InOrder(a) && InOrder(b) && WellBound(c) && WellBound(a) && WellBound(b)
    requires q.kind == Question && k.kind == Colon && TreeTier(c) > 2 && TreeTier(b) >= 2
    requires Converts(reals, Meaning(c)) && Converts(reals, Meaning(a)) && Converts(reals, Meaning(b))
    ensures var s := Ternary(c, q, a, k, b);
      && InOrder(s) && WellBound(s) && TreeTier(s) == 2
      && Yield(s) == Yield(c) + ([q] + (Yield(a) + ([k] + Yield(b))))
      && Meaning(s) == ExprIf(Meaning(c), Meaning(a), Meaning(b)) && Converts(reals, Meaning(s))
  {
    hide Stands, Leads, Assigns, JoinsTwo, Compares;
    OrderIsBinding(Ternary(c, q, a, k, b));
  }

  lemma SettingIs(reals: Numerals, a: Syntax, o: Lexeme, b: Syntax)
    requires InOrder(a) && InOrder(b) && WellBound(a) && WellBound(b) && Assigns(o.kind) && TreeTier(a) > 2
    requires Converts(reals, Meaning(a)) && Converts(reals, Meaning(b))
    ensures var s := Assign(a, o, b);
      && InOrder(s) && WellBound(s) && TreeTier(s) == 1 && Yield(s) == Yield(a) + ([o] + Yield(b))
      && Meaning(s) == Set(Meaning(a), o, Meaning(b)) && Converts(reals, Meaning(s))
  {
    hide Stands, Leads, JoinsTwo, Compares;
    OrderIsBinding(Assign(a, o, b));
  }

  lemma LedIs(reals: Numerals, o: Lexeme, a: Syntax)
    requires InOrder(a) && WellBound(a) && Leads(o.kind) && TreeTier(a) >= UNARY_TIER && Converts(reals, Meaning(a))
    ensures var s := Prefix(o, a);
      && InOrder(s) && WellBound(s) && TreeTier(s) == UNARY_TIER && Yield(s) == [o] + Yield(a)
      && Meaning(s) == ExprUnary(PrefixOp(o.kind), Meaning(a)) && Converts(reals, Meaning(s))
  {
    hide Stands, JoinsTwo, Compares, Assigns;
    OrderIsBinding(Prefix(o, a));
  }

  /** a o b p c: the operator of the higher tier takes b, and of two of one tier the first. */
  lemma TwoOperators(reals: Numerals, toks: Tokens, a: Lexeme, o: Lexeme, b: Lexeme, p: Lexeme, c: Lexeme)
    requires IsOperandToken(reals, a) && IsOperandToken(reals, b) && IsOperandToken(reals, c)
    requires JoinsTwo(o.kind) && JoinsTwo(p.kind) && Reads(toks, [a, o, b, p, c])
    ensures ParseAll(reals, toks, 0) == Ok([
      if Tier(o.kind) >= Tier(p.kind) then Join(Join(Leaf(a), o, Leaf(b)), p, Leaf(c))
      else Join(Leaf(a), o, Join(Leaf(b), p, Leaf(c)))])
  {
    hide ParseAll, Converts, Terminated, InOrder, WellBound, Meaning, Yield;
    hide TreeTier, Reads, IsOperandToken, Stands, Join, Two, Leaf;
    AtomIs(reals, a);
    AtomIs(reals, b);
    AtomIs(reals, c);
    if Tier(o.kind) >= Tier(p.kind) {
      TwoIs(reals, Atom(a), o, Atom(b));
      TwoIs(reals, Two(Atom(a), o, Atom(b)), p, Atom(c));
      assert [a] + ([o] + [b]) + ([p] + [c]) == [a, o, b, p, c];
      OneStatement(reals, toks, Two(Two(Atom(a), o, Atom(b)), p, Atom(c)));
    } else {
      TwoIs(reals, Atom(b), p, Atom(c));
      TwoIs(reals, Atom(a), o, Two(Atom(b), p, Atom(c)));
      assert [a] + ([o] + ([b] + ([p] + [c]))) == [a, o, b, p, c];
      OneStatement(reals, toks, Two(Atom(a), o, Two(Atom(b), p, Atom(c))));
    }
  }

  /** a o b < c: operators of tiers above that of comparisons go into the comparison. */
  lemma OperatorBeforeComparison(reals: Numerals, toks: Tokens, a: Lexeme, o: Lexeme, b: Lexeme, p: Lexeme, c: Lexeme)
    requires IsOperandToken(reals, a) && IsOperandToken(reals, b) && IsOperandToken(reals, c)
    requires JoinsTwo(o.kind) && Compares(p.kind) && Reads(toks, [a, o, b, p, c])
    ensures ParseAll(reals, toks, 0) == Ok([
      if Tier(o.kind) > 5 then Compare(Join(Leaf(a), o, Leaf(b)), p, Leaf(c))
      else Join(Leaf(a), o, Compare(Leaf(b), p, Leaf(c)))])
  {
    hide ParseAll, Converts, Terminated, InOrder, WellBound, Meaning;
    hide Yield, TreeTier, Reads, IsOperandToken, Stands, Join, Two;
    hide Compare, Pair, Leaf;
    AtomIs(reals, a);
    AtomIs(reals, b);
    AtomIs(reals, c);
    if Tier(o.kind) > 5 {
      TwoIs(reals, Atom(a), o, Atom(b));
      PairIs(reals, Two(Atom(a), o, Atom(b)), p, Atom(c));
      assert [a] + ([o] + [b]) + ([p] + [c]) == [a, o, b, p, c];
      OneStatement(reals, toks, Pair(Two(Atom(a), o, Atom(b)), p, Atom(c)));
    } else {
      PairIs(reals, Atom(b), p, Atom(c));
      TwoIs(reals, Atom(a), o, Pair(Atom(b), p, Atom(c)));
      assert [a] + ([o] + ([b] + ([p] + [c]))) == [a, o, b, p, c];
      OneStatement(reals, toks, Two(Atom(a), o, Pair(Atom(b), p, Atom(c))));
    }
  }

  /** a < b o c */
  lemma OperatorAfterComparison(reals: Numerals, toks: Tokens, a: Lexeme, o: Lexeme, b: Lexeme, p: Lexeme, c: Lexeme)
    requires IsOperandToken(reals, a) && IsOperandToken(reals, b) && IsOperandToken(reals, c)
    requires Compares(o.kind) && JoinsTwo(p.kind) && Reads(toks, [a, o, b, p, c])
    ensures ParseAll(reals, toks, 0) == Ok([
      if Tier(p.kind) > 5 then Compare(Leaf(a), o, Join(Leaf(b), p, Leaf(c)))
      else Join(Compare(Leaf(a), o, Leaf(b)), p, Leaf(c))])
  {
    hide ParseAll, Converts, Terminated, InOrder, WellBound, Meaning;
    hide Yield, TreeTier, Reads, IsOperandToken, Stands, Join, Two;
    hide Compare, Pair, Leaf;
    AtomIs(reals, a);
    AtomIs(reals, b);
    AtomIs(reals, c);
    if Tier(p.kind) > 5 {
      TwoIs(reals, Atom(b), p, Atom(c));
      PairIs(reals, Atom(a), o, Two(Atom(b), p, Atom(c)));
      assert [a] + ([o] + ([b] + ([p] + [c]))) == [a, o, b, p, c];
      OneStatement(reals, toks, Pair(Atom(a), o, Two(Atom(b), p, Atom(c))));
    } else {
      PairIs(reals, Atom(a), o, Atom(b));
      TwoIs(reals, Pair(Atom(a), o, Atom(b)), p, Atom(c));
      assert [a] + ([o] + [b]) + ([p] + [c]) == [a, o, b, p, c];
      OneStatement(reals, toks, Two(Pair(Atom(a), o, Atom(b)), p, Atom(c)));
    }
  }

  /** a < b < c is one comparison of three operands. */
  lemma ComparisonsChain(reals: Numerals, toks: Tokens, a: Lexeme, o: Lexeme, b: Lexeme, p: Lexeme, c: Lexeme)
    requires IsOperandToken(reals, a) && IsOperandToken(reals, b) && IsOperandToken(reals, c)
    requires Compares(o.kind) && Compares(p.kind) && Reads(toks, [a, o, b, p, c])
    ensures ParseAll(reals, toks, 0)
      == Ok([ExprComparison([Leaf(a), Leaf(b), Leaf(c)], [ComparisonOp(o.kind), ComparisonOp(p.kind)])])
  {
    hide ParseAll, Converts, Terminated, IsOperandToken, Stands, Leaf, ComparisonOp;
    AtomIs(reals, a);
    AtomIs(reals, b);
    AtomIs(reals, c);
    var links := Link(o, Atom(b), Link(p, Atom(c), Last));
    ThreeCompared(Atom(a), o, Atom(b), p, Atom(c));
    ConvertsChain(reals, [Leaf(a), Leaf(b), Leaf(c)], [ComparisonOp(o.kind), ComparisonOp(p.kind)]);
    assert [a] + ([o] + ([b] + ([p] + ([c] + [])))) == [a, o, b, p, c];
    OneStatement(reals, toks, Chain(Atom(a), links));
  }

  lemma ThreeCompared(a: Syntax, o: Lexeme, b: Syntax, p: Lexeme, c: Syntax)
    requires InOrder(a) && InOrder(b) && InOrder(c) && WellBound(a) && WellBound(b) && WellBound(c)
    requires TreeTier(a) > 5 && TreeTier(b) > 5 && TreeTier(c) > 5 && Compares(o.kind) && Compares(p.kind)
    ensures var s := Chain(a, Link(o, b, Link(p, c, Last)));
      && InOrder(s) && WellBound(s)
      && Yield(s) == Yield(a) + ([o] + (Yield(b) + ([p] + (Yield(c) + []))))
      && Meaning(s)
        == ExprComparison([Meaning(a), Meaning(b), Meaning(c)], [ComparisonOp(o.kind), ComparisonOp(p.kind)])
  {
    hide InOrder, WellBound, Meaning, Yield, TreeTier, LinksInOrder, WellBoundLinks, YieldLinks, LinkOperands, LinkOps;
    hide Compares, ComparisonOp, Tier;
    NoLink();
    KindsAgree(o.kind);
    KindsAgree(p.kind);
    LinkIs(p, c, Last);
    LinkIs(o, b, Link(p, c, Last));
    ChainIs(a, Link(o, b, Link(p, c, Last)));
    assert [Meaning(a)] + ([Meaning(b)] + ([Meaning(c)] + [])) == [Meaning(a), Meaning(b), Meaning(c)];
    assert [ComparisonOp(o.kind)] + ([ComparisonOp(p.kind)] + []) == [ComparisonOp(o.kind), ComparisonOp(p.kind)];
  }

  /** a o b ? c : d and a ? b : c o d: every operator, also a comparison, binds tighter than a ternary;
      the condition and the last branch take it whole. */
  lemma OperatorBeforeTernary(reals: Numerals, toks: Tokens, a: Lexeme, o: Lexeme, b: Lexeme, q: Lexeme, c: Lexeme,
          k: Lexeme, d: Lexeme)
    requires IsOperandToken(reals, a) && IsOperandToken(reals, b) && IsOperandToken(reals, c)
    requires IsOperandToken(reals, d)
    requires (JoinsTwo(o.kind) || Compares(o.kind)) && q.kind == Question && k.kind == Colon
    requires Reads(toks, [a, o, b, q, c, k, d])
    ensures ParseAll(reals, toks, 0) == Ok([ExprIf(
      if JoinsTwo(o.kind) then Join(Leaf(a), o, Leaf(b)) else Compare(Leaf(a), o, Leaf(b)), Leaf(c), Leaf(d))])
  {
    hide ParseAll, Converts, Terminated, InOrder, WellBound, Meaning;
    hide Yield, TreeTier, Reads, IsOperandToken, Stands, Join, Two;
    hide Compare, Pair, Leaf;
    AtomIs(reals, a);
    AtomIs(reals, b);
    AtomIs(reals, c);
    AtomIs(reals, d);
    var s := if JoinsTwo(o.kind) then Two(Atom(a), o, Atom(b)) else Pair(Atom(a), o, Atom(b));
    if JoinsTwo(o.kind) {
      TwoIs(reals, Atom(a), o, Atom(b));
    } else {
      PairIs(reals, Atom(a), o, Atom(b));
    }
    ChoiceIs(reals, s, q, Atom(c), k, Atom(d));
    assert [a] + ([o] + [b]) + ([q] + ([c] + ([k] + [d]))) == [a, o, b, q, c, k, d];
    OneStatement(reals, toks, Ternary(s, q, Atom(c), k, Atom(d)));
  }

  lemma OperatorAfterTernary(reals: Numerals, toks: Tokens, a: Lexeme, q: Lexeme, b: Lexeme, k: Lexeme, c: Lexeme,
          o: Lexeme, d: Lexeme)
    requires IsOperandToken(reals, a) && IsOperandToken(reals, b) && IsOperandToken(reals, c)
    requires IsOperandToken(reals, d)
    requires (JoinsTwo(o.kind) || Compares(o.kind)) && q.kind == Question && k.kind == Colon
    requires Reads(toks, [a, q, b, k, c, o, d])
    ensures ParseAll(reals, toks, 0) == Ok([ExprIf(Leaf(a), Leaf(b),
      if JoinsTwo(o.kind) then Join(Leaf(c), o, Leaf(d)) else Compare(Leaf(c), o, Leaf(d)))])
  {
    hide ParseAll, Converts, Terminated, InOrder, WellBound, Meaning;
    hide Yield, TreeTier, Reads, IsOperandToken, Stands, Join, Two;
    hide Compare, Pair, Leaf;
    AtomIs(reals, a);
    AtomIs(reals, b);
    AtomIs(reals, c);
    AtomIs(reals, d);
    var s := if JoinsTwo(o.kind) then Two(Atom(c), o, Atom(d)) else Pair(Atom(c), o, Atom(d));
    if JoinsTwo(o.kind) {
      TwoIs(reals, Atom(c), o, Atom(d));
    } else {
      PairIs(reals, Atom(c), o, Atom(d));
    }
    ChoiceIs(reals, Atom(a), q, Atom(b), k, s);
    assert [a] + ([q] + ([b] + ([k] + ([c] + ([o] + [d]))))) == [a, q, b, k, c, o, d];
    OneStatement(reals, toks, Ternary(Atom(a), q, Atom(b), k, s));
  }

  /** a o b = c and a = b o c: every operator binds tighter than an assignment. */
  lemma OperatorBeforeAssignment(reals: Numerals, toks: Tokens, a: Lexeme, o: Lexeme, b: Lexeme, p: Lexeme, c: Lexeme)
    requires IsOperandToken(reals, a) && IsOperandToken(reals, b) && IsOperandToken(reals, c)
    requires (JoinsTwo(o.kind) || Compares(o.kind)) && Assigns(p.kind) && Reads(toks, [a, o, b, p, c])
    ensures ParseAll(reals, toks, 0) == Ok([Set(
      if JoinsTwo(o.kind) then Join(Leaf(a), o, Leaf(b)) else Compare(Leaf(a), o, Leaf(b)), p, Leaf(c))])
  {
    hide ParseAll, Converts, Terminated, InOrder, WellBound, Meaning;
    hide Yield, TreeTier, Reads, IsOperandToken, Stands, Join, Two;
    hide Compare, Pair, Set, Leaf;
    AtomIs(reals, a);
    AtomIs(reals, b);
    AtomIs(reals, c);
    var s := if JoinsTwo(o.kind) then Two(Atom(a), o, Atom(b)) else Pair(Atom(a), o, Atom(b));
    if JoinsTwo(o.kind) {
      TwoIs(reals, Atom(a), o, Atom(b));
    } else {
      PairIs(reals, Atom(a), o, Atom(b));
    }
    SettingIs(reals, s, p, Atom(c));
    assert [a] + ([o] + [b]) + ([p] + [c]) == [a, o, b, p, c];
    OneStatement(reals, toks, Assign(s, p, Atom(c)));
  }

  lemma OperatorAfterAssignment(reals: Numerals, toks: Tokens, a: Lexeme, p: Lexeme, b: Lexeme, o: Lexeme, c: Lexeme)
    requires IsOperandToken(reals, a) && IsOperandToken(reals, b) && IsOperandToken(reals, c)
    requires (JoinsTwo(o.kind) || Compares(o.kind)) && Assigns(p.kind) && Reads(toks, [a, p, b, o, c])
    ensures ParseAll(reals, toks, 0) == Ok([Set(Leaf(a), p,
      if JoinsTwo(o.kind) then Join(Leaf(b), o, Leaf(c)) else Compare(Leaf(b), o, Leaf(c)))])
  {
    hide ParseAll, Converts, Terminated, InOrder, WellBound, Meaning;
    hide Yield, TreeTier, Reads, IsOperandToken, Stands, Join, Two;
    hide Compare, Pair, Set, Leaf;
    AtomIs(reals, a);
    AtomIs(reals, b);
    AtomIs(reals, c);
    var s := if JoinsTwo(o.kind) then Two(Atom(b), o, Atom(c)) else Pair(Atom(b), o, Atom(c));
    if JoinsTwo(o.kind) {
      TwoIs(reals, Atom(b), o, Atom(c));
    } else {
      PairIs(reals, Atom(b), o, Atom(c));
    }
    SettingIs(reals, Atom(a), p, s);
    assert [a] + ([p] + ([b] + ([o] + [c]))) == [a, p, b, o, c];
    OneStatement(reals, toks, Assign(Atom(a), p, s));
  }

  /** a = b ? c : d: the assignment takes the ternary whole. */
  lemma TernaryAfterAssignment(reals: Numerals, toks: Tokens, a: Lexeme, p: Lexeme, b: Lexeme, q: Lexeme, c: Lexeme,
          k: Lexeme, d: Lexeme)
    requires IsOperandToken(reals, a) && IsOperandToken(reals, b) && IsOperandToken(reals, c)
    requires IsOperandToken(reals, d)
    requires Assigns(p.kind) && q.kind == Question && k.kind == Colon && Reads(toks, [a, p, b, q, c, k, d])
    ensures ParseAll(reals, toks, 0) == Ok([Set(Leaf(a), p, ExprIf(Leaf(b), Leaf(c), Leaf(d)))])
  {
    hide ParseAll, Converts, Terminated, InOrder, WellBound, Meaning;
    hide Yield, TreeTier, Reads, IsOperandToken, Stands, Set, Leaf;
    AtomIs(reals, a);
    AtomIs(reals, b);
    AtomIs(reals, c);
    AtomIs(reals, d);
    var s := Ternary(Atom(b), q, Atom(c), k, Atom(d));
    ChoiceIs(reals, Atom(b), q, Atom(c), k, Atom(d));
    SettingIs(reals, Atom(a), p, s);
    assert [a] + ([p] + ([b] + ([q] + ([c] + ([k] + [d]))))) == [a, p, b, q, c, k, d];
    OneStatement(reals, toks, Assign(Atom(a), p, s));
  }

  /** - a o b: a prefix operator takes the operand alone. */
  lemma OperatorAfterPrefix(reals: Numerals, toks: Tokens, u: Lexeme, a: Lexeme, o: Lexeme, b: Lexeme)
    requires IsOperandToken(reals, a) && IsOperandToken(reals, b) && Leads(u.kind)
    requires (JoinsTwo(o.kind) || Compares(o.kind)) && Reads(toks, [u, a, o, b])
    ensures var led := ExprUnary(PrefixOp(u.kind), Leaf(a));
      ParseAll(reals, toks, 0)
        == Ok([if JoinsTwo(o.kind) then Join(led, o, Leaf(b)) else Compare(led, o, Leaf(b))])
  {
    hide ParseAll, Converts, Terminated, InOrder, WellBound, Meaning;
    hide Yield, TreeTier, Reads, IsOperandToken, Stands, Join, Two;
    hide Compare, Pair, Leaf, PrefixOp, Tier;
    AtomIs(reals, a);
    AtomIs(reals, b);
    LedIs(reals, u, Atom(a));
    TiersOf(o.kind);
    var s := if JoinsTwo(o.kind) then Two(Prefix(u, Atom(a)), o, Atom(b)) else Pair(Prefix(u, Atom(a)), o, Atom(b));
    if JoinsTwo(o.kind) {
      TwoIs(reals, Prefix(u, Atom(a)), o, Atom(b));
    } else {
      PairIs(reals, Prefix(u, Atom(a)), o, Atom(b));
    }
    assert [u] + [a] + ([o] + [b]) == [u, a, o, b];
    OneStatement(reals, toks, s);
  }

  lemma TiersOf(t: TokenType)
    ensures Tier(t) < UNARY_TIER
  {
  }

  /** a ? b : c ? d : e and a = b = c nest to the right. */
  lemma TernariesNest(reals: Numerals, toks: Tokens, a: Lexeme, q: Lexeme, b: Lexeme, k: Lexeme, c: Lexeme,
          q': Lexeme, d: Lexeme, k': Lexeme, e: Lexeme)
    requires IsOperandToken(reals, a) && IsOperandToken(reals, b) && IsOperandToken(reals, c)
    requires IsOperandToken(reals, d) && IsOperandToken(reals, e)
    requires q.kind == Question && k.kind == Colon && q'.kind == Question && k'.kind == Colon
    requires Reads(toks, [a, q, b, k, c, q', d, k', e])
    ensures ParseAll(reals, toks, 0) == Ok([ExprIf(Leaf(a), Leaf(b), ExprIf(Leaf(c), Leaf(d), Leaf(e)))])
  {
    hide ParseAll, Converts, Terminated, InOrder, WellBound, Meaning;
    hide Yield, TreeTier, Reads, IsOperandToken, Stands, Leaf;
    AtomIs(reals, a);
    AtomIs(reals, b);
    AtomIs(reals, c);
    AtomIs(reals, d);
    AtomIs(reals, e);
    var s := Ternary(Atom(c), q', Atom(d), k', Atom(e));
    ChoiceIs(reals, Atom(c), q', Atom(d), k', Atom(e));
    ChoiceIs(reals, Atom(a), q, Atom(b), k, s);
    assert [a] + ([q] + ([b] + ([k] + ([c] + ([q'] + ([d] + ([k'] + [e]))))))) == [a, q, b, k, c, q', d, k', e];
    OneStatement(reals, toks, Ternary(Atom(a), q, Atom(b), k, s));
  }

  lemma AssignmentsNest(reals: Numerals, toks: Tokens, a: Lexeme, o: Lexeme, b: Lexeme, p: Lexeme, c: Lexeme)
    requires IsOperandToken(reals, a) && IsOperandToken(reals, b) && IsOperandToken(reals, c)
    requires Assigns(o.kind) && Assigns(p.kind) && Reads(toks, [a, o, b, p, c])
    ensures ParseAll(reals, toks, 0) == Ok([Set(Leaf(a), o, Set(Leaf(b), p, Leaf(c)))])
  {
    hide ParseAll, Converts, Terminated, InOrder, WellBound, Meaning;
    hide Yield, TreeTier, Reads, IsOperandToken, Stands, Set, Leaf;
    AtomIs(reals, a);
    AtomIs(reals, b);
    AtomIs(reals, c);
    SettingIs(reals, Atom(b), p, Atom(c));
    SettingIs(reals, Atom(a), o, Assign(Atom(b), p, Atom(c)));
    assert [a] + ([o] + ([b] + ([p] + [c]))) == [a, o, b, p, c];
    OneStatement(reals, toks, Assign(Atom(a), o, Assign(Atom(b), p, Atom(c))));
  }
}
