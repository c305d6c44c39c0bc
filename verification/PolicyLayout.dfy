/** The layout of a policy expression: blanks between its lexemes say nothing. */
module PolicyLayout {
  import opened PolicyAst
  import opened PolicyGrammar
  import opened PolicyLexer
  import opened PolicyParser
  import opened PolicyText

  predicate IsBlank(gap: string)
  {
    forall i :: 0 <= i < |gap| ==> IsGap(gap[i])
  }

  /** Lexemes with blanks of any kind and number behind each. */
  function Laid(ts: seq<Token>, gaps: seq<string>): string
    requires |gaps| == |ts|
  {
    if ts == [] then [] else TokenText(ts[0]) + gaps[0] + Laid(ts[1..], gaps[1..])
  }

  lemma {:induction false} GapIsSkipped(lang: Lang, gap: string, rest: string, s: string, acc: seq<Token>)
    requires IsBlank(gap) && s == gap + rest
    ensures LexF(lang, s, acc) == LexF(lang, rest, acc)
    decreases |gap|
  {
    if gap == "" {
      assert s == rest;
    } else {
      assert s[0] == gap[0] && s[1..] == gap[1..] + rest;
      GapIsSkipped(lang, gap[1..], rest, s[1..], acc);
    }
  }

  lemma LaidTurn(lang: Lang, t: Token, gap: string, rest: string, s: string, acc: seq<Token>)
    requires Known(lang) && TokenIn(t, WordsOf(lang)) && gap != "" && IsBlank(gap) && s == TokenText(t) + gap + rest
    requires |acc| < MAX_TOKENS
    ensures LexF(lang, s, acc) == LexF(lang, rest, acc + [t])
  {
    var tail := gap[1..] + rest;
    assert s == TokenText(t) + [gap[0]] + tail;
    StepOfRendered(lang, t, gap[0], tail);
    assert s[|TokenText(t)|..] == gap + rest;
    GapIsSkipped(lang, gap, rest, gap + rest, acc + [t]);
  }

  /** Blanks, tabs and line ends between lexemes, and before the first, make no difference. */
  lemma {:induction false} LexOfLaid(lang: Lang, ts: seq<Token>, gaps: seq<string>, s: string, acc: seq<Token>,
      all: seq<Token>)
    requires Known(lang) && AllIn(ts, WordsOf(lang)) && |acc| + |ts| <= MAX_TOKENS && |gaps| == |ts|
    requires forall i :: 0 <= i < |gaps| ==> gaps[i] != "" && IsBlank(gaps[i])
    requires s == Laid(ts, gaps) && all == acc + ts
    ensures LexF(lang, s, acc) == Toks(all + [TEof])
    decreases |ts|
  {
    if ts != [] {
      var rest := Laid(ts[1..], gaps[1..]);
      assert all == acc + [ts[0]] + ts[1..];
      LexOfLaid(lang, ts[1..], gaps[1..], rest, acc + [ts[0]], all);
      LaidTurn(lang, ts[0], gaps[0], rest, s, acc);
    }
  }

  /** How an expression is laid out makes no difference: any blanks, tabs and line ends between its
      lexemes, and before the first, read like single blanks. */
  lemma LayoutLaw(lang: Lang, ts: seq<Token>, gaps: seq<string>, lead: string, text: string)
    requires Known(lang) && AllIn(ts, WordsOf(lang)) && |ts| <= MAX_TOKENS && |gaps| == |ts|
    requires IsBlank(lead) && forall i :: 0 <= i < |gaps| ==> gaps[i] != "" && IsBlank(gaps[i])
    requires text == lead + Laid(ts, gaps)
    ensures ParseExprF(lang, text) == ParseExprF(lang, Render(ts))
  {
    GapIsSkipped(lang, lead, Laid(ts, gaps), text, []);
    assert ts == [] + ts;
    LexOfLaid(lang, ts, gaps, Laid(ts, gaps), [], ts);
    LexOfRendered(lang, ts, Render(ts), [], ts);
  }
}
