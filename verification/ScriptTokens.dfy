/** The token vocabulary of the scripting language (any_types.hpp): the kinds, in the
    source's order, and a token with its text and its offset in the script. */
module ScriptTokens {

  datatype TokenType =
    | Integer | Real | String | Boolean
    | Identifier
    | Plus | Minus | Star | Slash | DotDot
    | Ampersand | Pipe | Caret | Tilde
    | AmpAmp | PipePipe | Bang
    | EqualEqual | BangEqual | Less | Greater | LessEqual | GreaterEqual
    | ColonEqual | Equal | PlusEqual | MinusEqual | StarEqual | SlashEqual
    | Question | Colon
    | LeftParen | RightParen | Semicolon
    | EndOfInput
    | Error

  /** What the parser looks at: kind and text, without the position. */
  datatype Lexeme = Lexeme(kind: TokenType, text: string)

  datatype Token = Token(lex: Lexeme, pos: nat)

  /** The tokens from index i on start with the lexemes ls. */
  ghost predicate At(toks: seq<Token>, i: nat, ls: seq<Lexeme>) {
    i + |ls| <= |toks| && forall k :: 0 <= k < |ls| ==> toks[i + k].lex == ls[k]
  }

  lemma AtConcat(toks: seq<Token>, i: nat, a: seq<Lexeme>, b: seq<Lexeme>)
    ensures At(toks, i, a + b) <==> At(toks, i, a) && At(toks, i + |a|, b)
  {
    if At(toks, i, a) && At(toks, i + |a|, b) {
      forall k | 0 <= k < |a + b| ensures toks[i + k].lex == (a + b)[k] {
        if k >= |a| {
          assert toks[i + |a| + (k - |a|)].lex == b[k - |a|];
        }
      }
    }
    if At(toks, i, a + b) {
      forall k | 0 <= k < |a| ensures toks[i + k].lex == a[k] {
        assert (a + b)[k] == a[k];
      }
      forall k | 0 <= k < |b| ensures toks[i + |a| + k].lex == b[k] {
        assert (a + b)[|a| + k] == b[k];
      }
    }
  }

  /** The same, around a single lexeme x. */
  lemma AtSplit(toks: seq<Token>, i: nat, a: seq<Lexeme>, x: Lexeme, b: seq<Lexeme>)
    requires At(toks, i, a + ([x] + b))
    ensures At(toks, i, a) && At(toks, i + |a| + 1, b)
    ensures i + |a| < |toks| && toks[i + |a|].lex == x
  {
    AtConcat(toks, i, a, [x] + b);
    AtConcat(toks, i + |a|, [x], b);
    assert toks[i + |a| + 0].lex == [x][0];
  }

  lemma AtHead(toks: seq<Token>, i: nat, x: Lexeme, b: seq<Lexeme>)
    requires At(toks, i, [x] + b)
    ensures At(toks, i + 1, b) && toks[i].lex == x
  {
    assert [] + ([x] + b) == [x] + b;
    AtSplit(toks, i, [], x, b);
  }

  /** The converses: pieces that lie next to each other make up the whole. */
  lemma AtCons(toks: seq<Token>, i: nat, x: Lexeme, b: seq<Lexeme>)
    requires i < |toks| && toks[i].lex == x && At(toks, i + 1, b)
    ensures At(toks, i, [x] + b)
  {
    assert At(toks, i, [x]);
    AtConcat(toks, i, [x], b);
  }

  lemma AtJoin(toks: seq<Token>, i: nat, a: seq<Lexeme>, x: Lexeme, b: seq<Lexeme>)
    requires At(toks, i, a) && i + |a| < |toks| && toks[i + |a|].lex == x && At(toks, i + |a| + 1, b)
    ensures At(toks, i, a + ([x] + b))
  {
    AtCons(toks, i + |a|, x, b);
    AtConcat(toks, i, a, [x] + b);
  }

  lemma AtNone(toks: seq<Token>, i: nat)
    requires i <= |toks|
    ensures At(toks, i, [])
  {
  }
}
