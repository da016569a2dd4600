/** The script front end as its callers see it (parseStatements, ParseScript, ValidateScript in
    script_parser.cpp): from the text of a script to its statements. */
module ScriptFrontEnd {

  import opened ScriptTokens
  import opened ScriptParser
  import opened ScriptGrammar
  import opened ScriptTokenizer
  import opened ScriptLexemes

  datatype Validation = Accepted | EmptyScript | SyntaxError(error: ParseError)

  ghost function TokensOf(src: string): Tokens {
    TokensTerminated(src, 0);
    Tokenize(src, 0)
  }

  /** The tokens of the text are those of the script sc, that means the statements, and all real
      literals in them convert. */
  ghost predicate TextMeans(reals: Numerals, src: string, sc: Script, stmts: seq<Expr>) {
    IsScript(TokensOf(src), 0, sc) && ScriptMeaning(sc) == stmts && AllConvert(reals, stmts)
  }

  method ParseStatements(reals: Numerals, src: string) returns (r: Result<seq<Expr>>)
    ensures r == ParseAll(reals, TokensOf(src), 0)
    ensures forall stmts :: r == Ok(stmts) <==> exists sc :: TextMeans(reals, src, sc, stmts)
  {
    hide Tokenize, ParseAll, IsScript, TextMeans;
    TokensTerminated(src, 0);
    var tokens := TokenizeScript(src);
    var parser := new Parser(reals, tokens);
    r := parser.ParseStatements();
    forall stmts ensures r == Ok(stmts) <==> exists sc :: TextMeans(reals, src, sc, stmts) {
      ParsesExactly(reals, src, stmts);
    }
  }

  lemma ParsesExactly(reals: Numerals, src: string, stmts: seq<Expr>)
    ensures ParseAll(reals, TokensOf(src), 0) == Ok(stmts) <==> exists sc :: TextMeans(reals, src, sc, stmts)
  {
    hide TokensOf, ParseAll;
    var toks := TokensOf(src);
    ParserIsGrammar(reals, toks, stmts);
    if ParseAll(reals, toks, 0) == Ok(stmts) {
      var sc := ScriptSound(reals, toks, 0);
      assert TextMeans(reals, src, sc, stmts);
    }
    if sc :| TextMeans(reals, src, sc, stmts) {
      ScriptComplete(reals, sc, toks, 0);
    }
  }

  /** The first token of a text is its end if the text is nothing but white space. */
  lemma {:induction false} OnlySpace(src: string, i: nat)
    requires i <= |src|
    ensures Tokenize(src, i) != []
    ensures Tokenize(src, i)[0].lex.kind == EndOfInput <==> forall k :: i <= k < |src| ==> IsSpace(src[k])
    decreases |src| - i
  {
    hide ScanToken, ValidLexeme;
    if i < |src| {
      if IsSpace(src[i]) {
        OnlySpace(src, i + 1);
      } else {
        ScanSound(src, i);
      }
    }
  }

  /** Parsing gives no statements exactly for a text of white space. */
  lemma NoStatement(reals: Numerals, src: string)
    ensures ParseAll(reals, TokensOf(src), 0) == Ok([]) <==> forall c :: c in src ==> IsSpace(c)
  {
    hide ParseExpr, Tokenize, IsSpace;
    OnlySpace(src, 0);
    if forall c :: c in src ==> IsSpace(c) {
      assert forall k :: 0 <= k < |src| ==> src[k] in src;
    }
  }

  lemma StatementMeans(reals: Numerals, src: string, sc: Script, stmts: seq<Expr>)
    requires TextMeans(reals, src, sc, stmts)
    ensures stmts == [] <==> sc == Done
  {
    hide TokensOf;
  }

  ghost predicate IsScriptText(reals: Numerals, src: string, sc: Script) {
    exists stmts :: TextMeans(reals, src, sc, stmts)
  }

  /** ValidateScript, and the part of ParseScript that looks at the text: a script is accepted if and
      only if it is a grammatical list of at least one statement whose real literals convert; a text
      of white space alone is an empty script, and every other text is an error. */
  method ValidateScript(reals: Numerals, src: string) returns (r: Validation)
    ensures r == Accepted <==> exists sc: Script :: sc.Statement? && IsScriptText(reals, src, sc)
    ensures r == EmptyScript <==> forall c :: c in src ==> IsSpace(c)
  {
    hide TokensOf, ParseAll, TextMeans, IsSpace;
    var exprs := ParseStatements(reals, src);
    NoStatement(reals, src);
    AcceptedExactly(reals, src, exprs);
    if exprs.Err? {
      return SyntaxError(exprs.error);
    }
    if |exprs.value| == 0 {
      return EmptyScript;
    }
    return Accepted;
  }

  lemma AcceptedExactly(reals: Numerals, src: string, exprs: Result<seq<Expr>>)
    requires forall stmts :: exprs == Ok(stmts) <==> exists sc :: TextMeans(reals, src, sc, stmts)
    ensures exprs.Ok? && exprs.value != [] <==> exists sc: Script :: sc.Statement? && IsScriptText(reals, src, sc)
  {
    hide TextMeans;
    if exprs.Ok? && exprs.value != [] {
      var sc :| TextMeans(reals, src, sc, exprs.value);
      StatementMeans(reals, src, sc, exprs.value);
      assert IsScriptText(reals, src, sc);
    }
    if sc: Script :| sc.Statement? && IsScriptText(reals, src, sc) {
      var stmts :| TextMeans(reals, src, sc, stmts);
      StatementMeans(reals, src, sc, stmts);
      assert exprs == Ok(stmts);
    }
  }
}
