/** parseExpr from text to tree, and the printer that is its inverse. */
module PolicyText {
  import opened PolicyAst
  import opened PolicyGrammar
  import opened PolicyParser
  import opened PolicyParserProof
  import opened PolicyLexer

  function ParseExprF(lang: Lang, input: string): Parsed
  {
    match LexF(lang, input, [])
    case LexErr(e) => Err(e)
    case Toks(ts) => ParseTokensF(ts)
  }

  /** parseExpr: scan, parse one expression, refuse trailing input. */
  method ParseExpr(lang: Lang, input: string) returns (r: Parsed)
    ensures r == ParseExprF(lang, input)
  {
    var toks := Lex(lang, input);
    match toks {
      case LexErr(e) => r := Err(e);
      case Toks(ts) => r := ParseTokens(ts);
    }
  }

  /** Some text can spell n: its numbers have a literal and its names are identifiers. */
  ghost predicate Printable(lang: Lang, n: Node)
  {
    Spellable(n, WordsOf(lang))
  }

  /** The tokens of n with only the parentheses the grammar needs. */
  ghost function PrintedTokens(lang: Lang, n: Node): seq<Token>
    requires Printable(lang, n)
  {
    Yield(Minimal(n, WordsOf(lang)))
  }

  ghost function Print(lang: Lang, n: Node): string
    requires Printable(lang, n)
  {
    Render(PrintedTokens(lang, n))
  }

  /** The printed tree fits the token and depth ceilings. */
  ghost predicate WithinBudget(lang: Lang, n: Node)
    requires Printable(lang, n)
  {
    |PrintedTokens(lang, n)| <= MAX_TOKENS && 1 + Need(Minimal(n, WordsOf(lang))) <= MAX_DEPTH
  }

  /** Printing and parsing again gives the same tree back exactly when it fits the budgets. */
  lemma RoundTrip(lang: Lang, n: Node)
    requires Known(lang) && Printable(lang, n)
    ensures ParseExprF(lang, Print(lang, n)) == Ok(n) <==> WithinBudget(lang, n)
  {
    var w := WordsOf(lang);
    var m := Minimal(n, w);
    MinimalIsInWords(n, w);
    MinimalIsFaithful(n, w);
    if |Yield(m)| > MAX_TOKENS {
      LexOfTooMany(lang, Yield(m), Render(Yield(m)), []);
    } else {
      assert Yield(m) == [] + Yield(m);
      LexOfRendered(lang, Yield(m), Render(Yield(m)), [], Yield(m));
      YieldIsValid(m);
      var ts := Yield(m) + [TEof];
      ParserIsTheGrammar(ts, n);
      if WithinBudget(lang, n) {
        assert Derives(m, ts);
      } else if ParseTokensF(ts) == Ok(n) {
        var c :| Derives(c, ts) && Strip(c) == n;
        MinimalIsLeast(c, w);
        assert false;
      }
    }
  }

  /** What any accepted text means can be printed, fits the budgets, and parses back: the
      printed form is a normal form of the text. */
  lemma AcceptedIsPrintable(lang: Lang, input: string)
    requires Known(lang) && ParseExprF(lang, input).Ok?
    ensures var n := ParseExprF(lang, input).node;
            Printable(lang, n) && WithinBudget(lang, n) && ParseExprF(lang, Print(lang, n)) == Ok(n)
  {
    var w := WordsOf(lang);
    var n := ParseExprF(lang, input).node;
    var ts := LexF(lang, input, []).ts;
    LexDeliversWords(lang, input, []);
    WordsHaveNoEof(ts[..|ts| - 1], w);
    assert ts == ts[..|ts| - 1] + [TEof];
    ParserIsTheGrammar(ts, n);
    var c :| Derives(c, ts) && Strip(c) == n;
    assert ts[..|ts| - 1] == Yield(c);
    WordsAreSpellable(c, w);
    MinimalIsLeast(c, w);
    RoundTrip(lang, n);
  }

  lemma WordsHaveNoEof(ts: seq<Token>, w: Words)
    requires AllIn(ts, w)
    ensures ValidToks(ts + [TEof])
  {
    forall i | 0 <= i < |ts|
      ensures (ts + [TEof])[i] != TEof
    {
      assert ts[i] in ts;
    }
  }

  /** The trees that some text means are exactly the printable ones within the budgets. */
  lemma AcceptedTrees(lang: Lang, n: Node)
    requires Known(lang)
    ensures (exists input :: ParseExprF(lang, input) == Ok(n)) <==>
            Printable(lang, n) && WithinBudget(lang, n)
  {
    forall input | ParseExprF(lang, input) == Ok(n)
      ensures Printable(lang, n) && WithinBudget(lang, n)
    {
      AcceptedIsPrintable(lang, input);
    }
    if Printable(lang, n) && WithinBudget(lang, n) {
      RoundTrip(lang, n);
    }
  }

  /** An accepted tree has at most as many nodes as the token ceiling allows. */
  lemma AcceptedTreesAreBounded(lang: Lang, input: string)
    requires Known(lang) && ParseExprF(lang, input).Ok?
    ensures NodeCount(ParseExprF(lang, input).node) <= MAX_TOKENS
  {
    AcceptedIsPrintable(lang, input);
    var n := ParseExprF(lang, input).node;
    MinimalIsFaithful(n, WordsOf(lang));
    NodesWithinTokens(Minimal(n, WordsOf(lang)));
  }
}
