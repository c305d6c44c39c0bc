/** What the operators, literals and names of the policy language mean, from their text to the
    value, in Dafny's own arithmetic and logic. */
module PolicyMeaning {
  import opened Options
  import opened Text
  import opened PolicyAst
  import opened PolicyEval
  import opened PolicyGrammar
  import opened PolicyLexer
  import opened PolicyParser
  import opened PolicyParserProof
  import opened PolicyText

  /** A text that parses evaluates to v. */
  ghost predicate Means(lang: Lang, lib: Library, inp: Input, text: string, v: Value)
  {
    ParseExprF(lang, text).Ok? ==> EvalF(lib, inp, ParseExprF(lang, text).node) == Got(v)
  }

  ghost predicate Is(lib: Library, inp: Input, n: Node, v: Value)
  {
    EvalF(lib, inp, n) == Got(v)
  }

  /** The text of a tree in parentheses. */
  ghost function Group(lang: Lang, n: Node): string
    requires Printable(lang, n)
  {
    "( " + Print(lang, n) + ") "
  }

  ghost function GroupTree(lang: Lang, n: Node): Cst
    requires Printable(lang, n)
  {
    CParen(Minimal(n, WordsOf(lang)))
  }

  // ----- A rendered tree that parses is read as its own meaning -----

  lemma {:induction false} RenderAppend(a: seq<Token>, b: seq<Token>)
    ensures Render(a + b) == Render(a) + Render(b)
    decreases |a|
  {
    if a == [] {
      assert a + b == b;
    } else {
      assert (a + b)[1..] == a[1..] + b;
      RenderAppend(a[1..], b);
    }
  }

  lemma RenderOne(t: Token)
    ensures Render([t]) == TokenText(t) + " "
  {
    assert Render([t][1..]) == "";
  }

  /** Within the budgets it parses; and whatever parses is read so. */
  lemma RenderedIsRead(lang: Lang, c: Cst, text: string)
    requires Known(lang) && WF(c) && AllIn(Yield(c), WordsOf(lang)) && text == Render(Yield(c))
    ensures ParseExprF(lang, text).Ok? ==> ParseExprF(lang, text) == Ok(Strip(c))
    ensures |Yield(c)| <= MAX_TOKENS && 1 + Need(c) <= MAX_DEPTH ==> ParseExprF(lang, text) == Ok(Strip(c))
  {
    var ts := Yield(c);
    if |ts| > MAX_TOKENS {
      LexOfTooMany(lang, ts, text, []);
    } else {
      assert ts == [] + ts;
      LexOfRendered(lang, ts, text, [], ts);
      YieldIsValid(c);
      var all := ts + [TEof];
      assert ParseExprF(lang, text) == ParseTokensF(all);
      if 1 + Need(c) <= MAX_DEPTH {
        assert Derives(c, all);
        ParserIsTheGrammar(all, Strip(c));
      }
      if ParseTokensF(all).Ok? {
        var n := ParseTokensF(all).node;
        ParserIsTheGrammar(all, n);
        var c' :| Derives(c', all) && Strip(c') == n;
        assert Yield(c') == all[..|all| - 1] == ts;
        Unambiguous(c, c');
      }
    }
  }

  lemma RenderedMeans(lang: Lang, lib: Library, inp: Input, c: Cst, text: string, v: Value)
    requires Known(lang) && WF(c) && AllIn(Yield(c), WordsOf(lang)) && text == Render(Yield(c))
    requires Is(lib, inp, Strip(c), v)
    ensures Means(lang, lib, inp, text, v)
  {
    RenderedIsRead(lang, c, text);
  }

  // ----- Operands -----

  /** A tree and the text it renders to. */
  ghost predicate Spells(lang: Lang, c: Cst, n: Node, text: string)
  {
    WF(c) && AllIn(Yield(c), WordsOf(lang)) && text == Render(Yield(c)) && Strip(c) == n
  }

  lemma ParensAreRendered(inner: seq<Token>, ts: seq<Token>, text: string)
    requires ts == [TLParen] + inner + [TRParen] && text == Render(inner)
    ensures Render(ts) == "( " + text + ") "
  {
    RenderAppend([TLParen] + inner, [TRParen]);
    RenderAppend([TLParen], inner);
    RenderOne(TLParen);
    RenderOne(TRParen);
    assert "(" + " " == "( " && ")" + " " == ") ";
  }

  lemma ParensSpell(lang: Lang, c: Cst, n: Node, text: string)
    requires Spells(lang, c, n, text)
    ensures Spells(lang, CParen(c), n, "( " + text + ") ") && Level(CParen(c)) == 5
  {
    ParensAreRendered(Yield(c), Yield(CParen(c)), text);
    AppendIn([TLParen], Yield(c), WordsOf(lang));
    AppendIn([TLParen] + Yield(c), [TRParen], WordsOf(lang));
  }

  lemma GroupSpells(lang: Lang, n: Node)
    requires Known(lang) && Printable(lang, n)
    ensures Spells(lang, GroupTree(lang, n), n, Group(lang, n)) && Level(GroupTree(lang, n)) == 5
  {
    PrintSpells(lang, n);
    ParensSpell(lang, Minimal(n, WordsOf(lang)), n, Print(lang, n));
  }

  lemma PrintSpells(lang: Lang, n: Node)
    requires Known(lang) && Printable(lang, n)
    ensures Spells(lang, Minimal(n, WordsOf(lang)), n, Print(lang, n))
  {
    MinimalIsFaithful(n, WordsOf(lang));
    MinimalIsInWords(n, WordsOf(lang));
  }

  lemma BinarySpells(lang: Lang, op: BinOp, l: Cst, r: Cst, a: Node, b: Node, s: string, t: string, sign: string)
    requires Known(lang) && Spells(lang, l, a, s) && Spells(lang, r, b, t) && sign == TokenText(BinToken(op)) + " "
    requires Level(l) >= LeftLevel(op) && Level(r) > OpLevel(op)
    ensures Spells(lang, CBin(op, l, r), Binary(op, a, b), s + sign + t)
  {
    var c := CBin(op, l, r);
    RenderAppend(Yield(l) + [BinToken(op)], Yield(r));
    RenderAppend(Yield(l), [BinToken(op)]);
    RenderOne(BinToken(op));
    AppendIn(Yield(l), [BinToken(op)], WordsOf(lang));
    AppendIn(Yield(l) + [BinToken(op)], Yield(r), WordsOf(lang));
  }

  lemma AppendIn(a: seq<Token>, b: seq<Token>, w: Words)
    requires AllIn(a, w) && AllIn(b, w)
    ensures AllIn(a + b, w)
  {}

  lemma UnarySpells(lang: Lang, op: UnOp, x: Cst, n: Node, t: string, sign: string)
    requires Known(lang) && Spells(lang, x, n, t) && sign == TokenText(UnToken(op)) + " " && Level(x) >= 4
    ensures Spells(lang, CUn(op, x), Unary(op, n), sign + t)
  {
    RenderAppend([UnToken(op)], Yield(x));
    RenderOne(UnToken(op));
    AppendIn([UnToken(op)], Yield(x), WordsOf(lang));
  }

  /** The texts of two trees in parentheses. */
  ghost predicate Groups(lang: Lang, a: Node, b: Node, g: string, h: string)
  {
    Known(lang) && Printable(lang, a) && Printable(lang, b) && g == Group(lang, a) && h == Group(lang, b)
  }

  /** Two groups with an operator between them. */
  lemma PairMeans(lang: Lang, lib: Library, inp: Input, op: BinOp, a: Node, b: Node, g: string, h: string, sign: string,
      v: Value)
    requires Groups(lang, a, b, g, h) && sign == TokenText(BinToken(op)) + " "
    requires Is(lib, inp, Binary(op, a, b), v)
    ensures Means(lang, lib, inp, g + sign + h, v)
  {
    GroupSpells(lang, a);
    GroupSpells(lang, b);
    var l, r := GroupTree(lang, a), GroupTree(lang, b);
    BinarySpells(lang, op, l, r, a, b, g, h, sign);
    RenderedMeans(lang, lib, inp, CBin(op, l, r), g + sign + h, v);
  }

  // ----- Operators -----

  lemma InfixSigns()
    ensures TokenText(BinToken(Lt)) + " " == "< " && TokenText(BinToken(Le)) + " " == "<= "
    ensures TokenText(BinToken(Gt)) + " " == "> " && TokenText(BinToken(Ge)) + " " == ">= "
    ensures TokenText(BinToken(Eq)) + " " == "== " && TokenText(BinToken(Ne)) + " " == "!= "
    ensures TokenText(BinToken(Plus)) + " " == "+ " && TokenText(BinToken(Minus)) + " " == "- "
    ensures TokenText(BinToken(And)) + " " == "&& " && TokenText(BinToken(Or)) + " " == "|| "
  {}

  lemma PrefixSigns()
    ensures TokenText(UnToken(Not)) + " " == "! " && TokenText(UnToken(Neg)) + " " == "- "
  {}

  lemma StrictIs(lib: Library, inp: Input, op: BinOp, a: Node, b: Node, v: Value, w: Value)
    requires op != And && op != Or && Is(lib, inp, a, v) && Is(lib, inp, b, w)
    ensures EvalF(lib, inp, Binary(op, a, b)) == StrictF(op, v, w)
  {}

  lemma OrderIs(lib: Library, inp: Input, a: Node, b: Node, x: real, y: real)
    requires Is(lib, inp, a, Num(x)) && Is(lib, inp, b, Num(y))
    ensures Is(lib, inp, Binary(Lt, a, b), Bool(x < y)) && Is(lib, inp, Binary(Le, a, b), Bool(x <= y))
    ensures Is(lib, inp, Binary(Gt, a, b), Bool(x > y)) && Is(lib, inp, Binary(Ge, a, b), Bool(x >= y))
  {
    StrictIs(lib, inp, Lt, a, b, Num(x), Num(y));
    StrictIs(lib, inp, Le, a, b, Num(x), Num(y));
    StrictIs(lib, inp, Gt, a, b, Num(x), Num(y));
    StrictIs(lib, inp, Ge, a, b, Num(x), Num(y));
  }

  lemma SumIs(lib: Library, inp: Input, a: Node, b: Node, x: real, y: real)
    requires Is(lib, inp, a, Num(x)) && Is(lib, inp, b, Num(y))
    ensures Is(lib, inp, Binary(Plus, a, b), Num(x + y))
  {
    StrictIs(lib, inp, Plus, a, b, Num(x), Num(y));
  }

  lemma DifferenceIs(lib: Library, inp: Input, a: Node, b: Node, x: real, y: real)
    requires Is(lib, inp, a, Num(x)) && Is(lib, inp, b, Num(y))
    ensures Is(lib, inp, Binary(Minus, a, b), Num(x - y))
  {
    StrictIs(lib, inp, Minus, a, b, Num(x), Num(y));
  }

  lemma NumberValues(lib: Library, inp: Input, a: Node, b: Node, x: real, y: real)
    requires Is(lib, inp, a, Num(x)) && Is(lib, inp, b, Num(y))
    ensures Is(lib, inp, Binary(Lt, a, b), Bool(x < y)) && Is(lib, inp, Binary(Le, a, b), Bool(x <= y))
    ensures Is(lib, inp, Binary(Gt, a, b), Bool(x > y)) && Is(lib, inp, Binary(Ge, a, b), Bool(x >= y))
    ensures Is(lib, inp, Binary(Eq, a, b), Bool(x == y)) && Is(lib, inp, Binary(Ne, a, b), Bool(x != y))
    ensures Is(lib, inp, Binary(Plus, a, b), Num(x + y)) && Is(lib, inp, Binary(Minus, a, b), Num(x - y))
  {
    OrderIs(lib, inp, a, b, x, y);
    EqualityIs(lib, inp, a, b, Num(x), Num(y));
    SumIs(lib, inp, a, b, x, y);
    DifferenceIs(lib, inp, a, b, x, y);
  }

  /** Comparing numbers. */
  lemma OrderLaws(lang: Lang, lib: Library, inp: Input, a: Node, b: Node, g: string, h: string, x: real, y: real)
    requires Groups(lang, a, b, g, h) && Is(lib, inp, a, Num(x)) && Is(lib, inp, b, Num(y))
    ensures Means(lang, lib, inp, g + "< " + h, Bool(x < y))
    ensures Means(lang, lib, inp, g + "<= " + h, Bool(x <= y))
    ensures Means(lang, lib, inp, g + "> " + h, Bool(x > y))
    ensures Means(lang, lib, inp, g + ">= " + h, Bool(x >= y))
  {
    InfixSigns();
    NumberValues(lib, inp, a, b, x, y);
    PairMeans(lang, lib, inp, Lt, a, b, g, h, "< ", Bool(x < y));
    PairMeans(lang, lib, inp, Le, a, b, g, h, "<= ", Bool(x <= y));
    PairMeans(lang, lib, inp, Gt, a, b, g, h, "> ", Bool(x > y));
    PairMeans(lang, lib, inp, Ge, a, b, g, h, ">= ", Bool(x >= y));
  }

  /** Adding and subtracting them. */
  lemma ArithmeticLaws(lang: Lang, lib: Library, inp: Input, a: Node, b: Node, g: string, h: string, x: real, y: real)
    requires Groups(lang, a, b, g, h) && Is(lib, inp, a, Num(x)) && Is(lib, inp, b, Num(y))
    ensures Means(lang, lib, inp, g + "+ " + h, Num(x + y))
    ensures Means(lang, lib, inp, g + "- " + h, Num(x - y))
  {
    InfixSigns();
    NumberValues(lib, inp, a, b, x, y);
    PairMeans(lang, lib, inp, Plus, a, b, g, h, "+ ", Num(x + y));
    PairMeans(lang, lib, inp, Minus, a, b, g, h, "- ", Num(x - y));
  }

  /** s stands before t in a dictionary. */
  ghost predicate Earlier(s: string, t: string)
  {
    exists k :: 0 <= k <= |s| && k < |t| && s[..k] == t[..k] && (k == |s| || s[k] < t[k])
  }

  lemma NotEarlier(s: string, t: string)
    requires t == [] || (s != [] && s[0] > t[0])
    ensures !Earlier(s, t)
  {
    forall k | 0 < k <= |s| && k < |t|
      ensures s[..k] != t[..k]
    {
      assert s[..k][0] == s[0] && t[..k][0] == t[0];
    }
  }

  lemma {:induction false} TextLessIff(s: string, t: string)
    ensures TextLess(s, t) <==> Earlier(s, t)
    decreases |s|
  {
    if s != [] && t != [] && s[0] == t[0] {
      TextLessIff(s[1..], t[1..]);
      if Earlier(s[1..], t[1..]) {
        var k :| 0 <= k <= |s| - 1 && k < |t| - 1 && s[1..][..k] == t[1..][..k] && (k == |s| - 1 || s[1..][k] < t[1..][k]);
        assert s[..k + 1] == [s[0]] + s[1..][..k] == [t[0]] + t[1..][..k] == t[..k + 1];
      }
      if Earlier(s, t) {
        var k :| 0 <= k <= |s| && k < |t| && s[..k] == t[..k] && (k == |s| || s[k] < t[k]);
        assert k > 0;
        assert s[1..][..k - 1] == s[..k][1..] == t[..k][1..] == t[1..][..k - 1];
      }
    } else if t != [] && (s == [] || s[0] < t[0]) {
      assert s[..0] == t[..0];
    } else {
      NotEarlier(s, t);
    }
  }

  lemma TextValues(lib: Library, inp: Input, a: Node, b: Node, s: string, t: string)
    requires Is(lib, inp, a, Str(s)) && Is(lib, inp, b, Str(t))
    ensures Is(lib, inp, Binary(Lt, a, b), Bool(Earlier(s, t))) && Is(lib, inp, Binary(Le, a, b), Bool(!Earlier(t, s)))
    ensures Is(lib, inp, Binary(Gt, a, b), Bool(Earlier(t, s))) && Is(lib, inp, Binary(Ge, a, b), Bool(!Earlier(s, t)))
  {
    TextLessIff(s, t);
    TextLessIff(t, s);
    StrictIs(lib, inp, Lt, a, b, Str(s), Str(t));
    StrictIs(lib, inp, Le, a, b, Str(s), Str(t));
    StrictIs(lib, inp, Gt, a, b, Str(s), Str(t));
    StrictIs(lib, inp, Ge, a, b, Str(s), Str(t));
  }

  /** Comparing texts. */
  lemma TextLaws(lang: Lang, lib: Library, inp: Input, a: Node, b: Node, g: string, h: string, s: string, t: string)
    requires Groups(lang, a, b, g, h) && Is(lib, inp, a, Str(s)) && Is(lib, inp, b, Str(t))
    ensures Means(lang, lib, inp, g + "< " + h, Bool(Earlier(s, t)))
    ensures Means(lang, lib, inp, g + "<= " + h, Bool(!Earlier(t, s)))
    ensures Means(lang, lib, inp, g + "> " + h, Bool(Earlier(t, s)))
    ensures Means(lang, lib, inp, g + ">= " + h, Bool(!Earlier(s, t)))
  {
    InfixSigns();
    TextValues(lib, inp, a, b, s, t);
    PairMeans(lang, lib, inp, Lt, a, b, g, h, "< ", Bool(Earlier(s, t)));
    PairMeans(lang, lib, inp, Le, a, b, g, h, "<= ", Bool(!Earlier(t, s)));
    PairMeans(lang, lib, inp, Gt, a, b, g, h, "> ", Bool(Earlier(t, s)));
    PairMeans(lang, lib, inp, Ge, a, b, g, h, ">= ", Bool(!Earlier(s, t)));
  }

  lemma EqualityIs(lib: Library, inp: Input, a: Node, b: Node, v: Value, w: Value)
    requires Is(lib, inp, a, v) && Is(lib, inp, b, w)
    ensures Is(lib, inp, Binary(Eq, a, b), Bool(v == w)) && Is(lib, inp, Binary(Ne, a, b), Bool(v != w))
  {}

  /** Equality of any values. */
  lemma EqualityLaws(lang: Lang, lib: Library, inp: Input, a: Node, b: Node, g: string, h: string, v: Value, w: Value)
    requires Groups(lang, a, b, g, h) && Is(lib, inp, a, v) && Is(lib, inp, b, w)
    ensures Means(lang, lib, inp, g + "== " + h, Bool(v == w))
    ensures Means(lang, lib, inp, g + "!= " + h, Bool(v != w))
  {
    EqualityIs(lib, inp, a, b, v, w);
    InfixSigns();
    PairMeans(lang, lib, inp, Eq, a, b, g, h, "== ", Bool(v == w));
    PairMeans(lang, lib, inp, Ne, a, b, g, h, "!= ", Bool(v != w));
  }

  lemma LogicIs(lib: Library, inp: Input, a: Node, b: Node, p: bool, q: bool)
    requires Is(lib, inp, a, Bool(p))
    ensures (p ==> Is(lib, inp, b, Bool(q))) ==> Is(lib, inp, Binary(And, a, b), Bool(p && q))
    ensures (!p ==> Is(lib, inp, b, Bool(q))) ==> Is(lib, inp, Binary(Or, a, b), Bool(p || q))
  {}

  /** The right side of && and || need only have a value where the left does not decide. */
  lemma AndLaw(lang: Lang, lib: Library, inp: Input, a: Node, b: Node, g: string, h: string, p: bool, q: bool)
    requires Groups(lang, a, b, g, h) && Is(lib, inp, a, Bool(p)) && (p ==> Is(lib, inp, b, Bool(q)))
    ensures Means(lang, lib, inp, g + "&& " + h, Bool(p && q))
  {
    LogicIs(lib, inp, a, b, p, q);
    InfixSigns();
    PairMeans(lang, lib, inp, And, a, b, g, h, "&& ", Bool(p && q));
  }

  lemma OrLaw(lang: Lang, lib: Library, inp: Input, a: Node, b: Node, g: string, h: string, p: bool, q: bool)
    requires Groups(lang, a, b, g, h) && Is(lib, inp, a, Bool(p)) && (!p ==> Is(lib, inp, b, Bool(q)))
    ensures Means(lang, lib, inp, g + "|| " + h, Bool(p || q))
  {
    LogicIs(lib, inp, a, b, p, q);
    InfixSigns();
    PairMeans(lang, lib, inp, Or, a, b, g, h, "|| ", Bool(p || q));
  }

  lemma PrefixMeans(lang: Lang, lib: Library, inp: Input, op: UnOp, a: Node, g: string, sign: string, v: Value)
    requires Known(lang) && Printable(lang, a) && g == Group(lang, a) && sign == TokenText(UnToken(op)) + " "
    requires Is(lib, inp, Unary(op, a), v)
    ensures Means(lang, lib, inp, sign + g, v)
  {
    GroupSpells(lang, a);
    UnarySpells(lang, op, GroupTree(lang, a), a, g, sign);
    RenderedMeans(lang, lib, inp, CUn(op, GroupTree(lang, a)), sign + g, v);
  }

  /** The prefix operators. */
  lemma NotLaw(lang: Lang, lib: Library, inp: Input, a: Node, g: string, p: bool)
    requires Known(lang) && Printable(lang, a) && g == Group(lang, a) && Is(lib, inp, a, Bool(p))
    ensures Means(lang, lib, inp, "! " + g, Bool(!p))
  {
    PrefixSigns();
    PrefixMeans(lang, lib, inp, Not, a, g, "! ", Bool(!p));
  }

  lemma NegativeIs(lib: Library, inp: Input, a: Node, x: real)
    requires Is(lib, inp, a, Num(x))
    ensures Is(lib, inp, Unary(Neg, a), Num(0.0 - x))
  {}

  lemma NegationLaw(lang: Lang, lib: Library, inp: Input, a: Node, g: string, x: real)
    requires Known(lang) && Printable(lang, a) && g == Group(lang, a) && Is(lib, inp, a, Num(x))
    ensures Means(lang, lib, inp, "- " + g, Num(0.0 - x))
  {
    NegativeIs(lib, inp, a, x);
    PrefixSigns();
    PrefixMeans(lang, lib, inp, Neg, a, g, "- ", Num(0.0 - x));
  }

  // ----- Without parentheses -----

  /** What has a number for a value is no comparison, conjunction or disjunction. */
  lemma NumbersBindTightly(lang: Lang, lib: Library, inp: Input, a: Node, x: real)
    requires Printable(lang, a) && Is(lib, inp, a, Num(x))
    ensures Level(Minimal(a, WordsOf(lang))) >= 3
  {}

  lemma PlainPairMeans(lang: Lang, lib: Library, inp: Input, op: BinOp, a: Node, b: Node, g: string, h: string, x: real,
      y: real, sign: string, v: Value)
    requires Known(lang) && Printable(lang, a) && Printable(lang, b) && sign == TokenText(BinToken(op)) + " "
    requires Is(lib, inp, a, Num(x)) && Is(lib, inp, b, Num(y))
    requires OpLevel(op) == 2 && Is(lib, inp, Binary(op, a, b), v)
    requires g == Print(lang, a) && h == Print(lang, b)
    ensures Means(lang, lib, inp, g + sign + h, v)
  {
    var l, r := Minimal(a, WordsOf(lang)), Minimal(b, WordsOf(lang));
    PrintSpells(lang, a);
    PrintSpells(lang, b);
    NumbersBindTightly(lang, lib, inp, a, x);
    NumbersBindTightly(lang, lib, inp, b, y);
    BinarySpells(lang, op, l, r, a, b, g, h, sign);
    RenderedMeans(lang, lib, inp, CBin(op, l, r), g + sign + h, v);
  }

  /** Comparing numbers, as printed. */
  lemma PlainNumberLaws(lang: Lang, lib: Library, inp: Input, a: Node, b: Node, g: string, h: string, x: real, y: real)
    requires Known(lang) && Printable(lang, a) && Printable(lang, b)
    requires g == Print(lang, a) && h == Print(lang, b) && Is(lib, inp, a, Num(x)) && Is(lib, inp, b, Num(y))
    ensures Means(lang, lib, inp, g + "< " + h, Bool(x < y))
    ensures Means(lang, lib, inp, g + "<= " + h, Bool(x <= y))
    ensures Means(lang, lib, inp, g + "> " + h, Bool(x > y))
    ensures Means(lang, lib, inp, g + ">= " + h, Bool(x >= y))
    ensures Means(lang, lib, inp, g + "== " + h, Bool(x == y))
    ensures Means(lang, lib, inp, g + "!= " + h, Bool(x != y))
  {
    InfixSigns();
    NumberValues(lib, inp, a, b, x, y);
    PlainPairMeans(lang, lib, inp, Lt, a, b, g, h, x, y, "< ", Bool(x < y));
    PlainPairMeans(lang, lib, inp, Le, a, b, g, h, x, y, "<= ", Bool(x <= y));
    PlainPairMeans(lang, lib, inp, Gt, a, b, g, h, x, y, "> ", Bool(x > y));
    PlainPairMeans(lang, lib, inp, Ge, a, b, g, h, x, y, ">= ", Bool(x >= y));
    PlainPairMeans(lang, lib, inp, Eq, a, b, g, h, x, y, "== ", Bool(x == y));
    PlainPairMeans(lang, lib, inp, Ne, a, b, g, h, x, y, "!= ", Bool(x != y));
  }

  // ----- Mixed operators -----

  /** Three operands, the first two taken together or the last two. */
  lemma LeftFirst(lang: Lang, lib: Library, inp: Input, op: BinOp, op': BinOp, a: Node, b: Node, c: Node, g: string,
      h: string, k: string, sign: string, sign': string, v: Value)
    requires Groups(lang, a, b, g, h) && Printable(lang, c) && k == Group(lang, c)
    requires sign == TokenText(BinToken(op)) + " " && sign' == TokenText(BinToken(op')) + " "
    requires OpLevel(op) >= LeftLevel(op') && Is(lib, inp, Binary(op', Binary(op, a, b), c), v)
    ensures Means(lang, lib, inp, g + sign + h + sign' + k, v)
  {
    GroupSpells(lang, a);
    GroupSpells(lang, b);
    GroupSpells(lang, c);
    var l := CBin(op, GroupTree(lang, a), GroupTree(lang, b));
    BinarySpells(lang, op, GroupTree(lang, a), GroupTree(lang, b), a, b, g, h, sign);
    BinarySpells(lang, op', l, GroupTree(lang, c), Binary(op, a, b), c, g + sign + h, k, sign');
    RenderedMeans(lang, lib, inp, CBin(op', l, GroupTree(lang, c)), g + sign + h + sign' + k, v);
  }

  lemma RightFirst(lang: Lang, lib: Library, inp: Input, op: BinOp, op': BinOp, a: Node, b: Node, c: Node, g: string,
      h: string, k: string, sign: string, sign': string, v: Value)
    requires Groups(lang, a, b, g, h) && Printable(lang, c) && k == Group(lang, c)
    requires sign == TokenText(BinToken(op)) + " " && sign' == TokenText(BinToken(op')) + " "
    requires OpLevel(op') > OpLevel(op) && Is(lib, inp, Binary(op, a, Binary(op', b, c)), v)
    ensures Means(lang, lib, inp, g + sign + (h + sign' + k), v)
  {
    GroupSpells(lang, a);
    GroupSpells(lang, b);
    GroupSpells(lang, c);
    var r := CBin(op', GroupTree(lang, b), GroupTree(lang, c));
    BinarySpells(lang, op', GroupTree(lang, b), GroupTree(lang, c), b, c, h, k, sign');
    BinarySpells(lang, op, GroupTree(lang, a), r, a, Binary(op', b, c), g, h + sign' + k, sign);
    RenderedMeans(lang, lib, inp, CBin(op, GroupTree(lang, a), r), g + sign + (h + sign' + k), v);
  }

  lemma LogicValues(lib: Library, inp: Input, a: Node, b: Node, p: bool, q: bool)
    requires Is(lib, inp, a, Bool(p)) && Is(lib, inp, b, Bool(q))
    ensures Is(lib, inp, Binary(And, a, b), Bool(p && q)) && Is(lib, inp, Binary(Or, a, b), Bool(p || q))
    ensures Is(lib, inp, Unary(Not, a), Bool(!p))
  {
    LogicIs(lib, inp, a, b, p, q);
  }

  lemma LogicTogether(lib: Library, inp: Input, a: Node, b: Node, c: Node, p: bool, q: bool, r: bool)
    requires Is(lib, inp, a, Bool(p)) && Is(lib, inp, b, Bool(q)) && Is(lib, inp, c, Bool(r))
    ensures Is(lib, inp, Binary(Or, Binary(And, a, b), c), Bool((p && q) || r))
    ensures Is(lib, inp, Binary(Or, a, Binary(And, b, c)), Bool(p || (q && r)))
  {
    LogicIs(lib, inp, a, b, p, q);
    LogicIs(lib, inp, Binary(And, a, b), c, p && q, r);
    LogicIs(lib, inp, b, c, q, r);
    LogicIs(lib, inp, a, Binary(And, b, c), p, q && r);
  }

  lemma OrderTogether(lib: Library, inp: Input, a: Node, b: Node, c: Node, x: real, y: real, r: bool)
    requires Is(lib, inp, a, Num(x)) && Is(lib, inp, b, Num(y)) && Is(lib, inp, c, Bool(r))
    ensures Is(lib, inp, Binary(And, Binary(Lt, a, b), c), Bool(x < y && r))
    ensures Is(lib, inp, Binary(And, c, Binary(Lt, a, b)), Bool(r && x < y))
  {
    OrderIs(lib, inp, a, b, x, y);
    LogicIs(lib, inp, Binary(Lt, a, b), c, x < y, r);
    LogicIs(lib, inp, c, Binary(Lt, a, b), r, x < y);
  }

  /** && binds tighter than ||, on either side. */
  lemma AndBeforeOr(lang: Lang, lib: Library, inp: Input, a: Node, b: Node, c: Node, g: string, h: string, k: string,
      p: bool, q: bool, r: bool)
    requires Groups(lang, a, b, g, h) && Printable(lang, c) && k == Group(lang, c)
    requires Is(lib, inp, a, Bool(p)) && Is(lib, inp, b, Bool(q)) && Is(lib, inp, c, Bool(r))
    ensures Means(lang, lib, inp, g + "&& " + h + "|| " + k, Bool((p && q) || r))
    ensures Means(lang, lib, inp, g + "|| " + (h + "&& " + k), Bool(p || (q && r)))
  {
    LogicTogether(lib, inp, a, b, c, p, q, r);
    AndFirst(lang, lib, inp, a, b, c, g, h, k, Bool((p && q) || r));
    AndSecond(lang, lib, inp, a, b, c, g, h, k, Bool(p || (q && r)));
  }

  lemma AndFirst(lang: Lang, lib: Library, inp: Input, a: Node, b: Node, c: Node, g: string, h: string, k: string,
      v: Value)
    requires Groups(lang, a, b, g, h) && Printable(lang, c) && k == Group(lang, c)
    requires Is(lib, inp, Binary(Or, Binary(And, a, b), c), v)
    ensures Means(lang, lib, inp, g + "&& " + h + "|| " + k, v)
  {
    InfixSigns();
    LeftFirst(lang, lib, inp, And, Or, a, b, c, g, h, k, "&& ", "|| ", v);
  }

  lemma AndSecond(lang: Lang, lib: Library, inp: Input, a: Node, b: Node, c: Node, g: string, h: string, k: string,
      v: Value)
    requires Groups(lang, a, b, g, h) && Printable(lang, c) && k == Group(lang, c)
    requires Is(lib, inp, Binary(Or, a, Binary(And, b, c)), v)
    ensures Means(lang, lib, inp, g + "|| " + (h + "&& " + k), v)
  {
    InfixSigns();
    RightFirst(lang, lib, inp, Or, And, a, b, c, g, h, k, "|| ", "&& ", v);
  }

  /** A comparison binds tighter than &&. */
  lemma OrderBeforeAnd(lang: Lang, lib: Library, inp: Input, a: Node, b: Node, c: Node, g: string, h: string, k: string,
      x: real, y: real, r: bool)
    requires Groups(lang, a, b, g, h) && Printable(lang, c) && k == Group(lang, c)
    requires Is(lib, inp, a, Num(x)) && Is(lib, inp, b, Num(y)) && Is(lib, inp, c, Bool(r))
    ensures Means(lang, lib, inp, g + "< " + h + "&& " + k, Bool(x < y && r))
    ensures Means(lang, lib, inp, k + "&& " + (g + "< " + h), Bool(r && x < y))
  {
    OrderTogether(lib, inp, a, b, c, x, y, r);
    OrderFirst(lang, lib, inp, a, b, c, g, h, k, Bool(x < y && r));
    OrderSecond(lang, lib, inp, c, a, b, k, g, h, Bool(r && x < y));
  }

  lemma OrderFirst(lang: Lang, lib: Library, inp: Input, a: Node, b: Node, c: Node, g: string, h: string, k: string,
      v: Value)
    requires Groups(lang, a, b, g, h) && Printable(lang, c) && k == Group(lang, c)
    requires Is(lib, inp, Binary(And, Binary(Lt, a, b), c), v)
    ensures Means(lang, lib, inp, g + "< " + h + "&& " + k, v)
  {
    InfixSigns();
    LeftFirst(lang, lib, inp, Lt, And, a, b, c, g, h, k, "< ", "&& ", v);
  }

  lemma OrderSecond(lang: Lang, lib: Library, inp: Input, a: Node, b: Node, c: Node, g: string, h: string, k: string,
      v: Value)
    requires Groups(lang, a, b, g, h) && Printable(lang, c) && k == Group(lang, c)
    requires Is(lib, inp, Binary(And, a, Binary(Lt, b, c)), v)
    ensures Means(lang, lib, inp, g + "&& " + (h + "< " + k), v)
  {
    InfixSigns();
    RightFirst(lang, lib, inp, And, Lt, a, b, c, g, h, k, "&& ", "< ", v);
  }

  lemma SumLess(lib: Library, inp: Input, a: Node, b: Node, c: Node, x: real, y: real, z: real)
    requires Is(lib, inp, a, Num(x)) && Is(lib, inp, b, Num(y)) && Is(lib, inp, c, Num(z))
    ensures Is(lib, inp, Binary(Lt, Binary(Plus, a, b), c), Bool(x + y < z))
  {
    SumIs(lib, inp, a, b, x, y);
    OrderIs(lib, inp, Binary(Plus, a, b), c, x + y, z);
  }

  lemma LessSum(lib: Library, inp: Input, a: Node, b: Node, c: Node, x: real, y: real, z: real)
    requires Is(lib, inp, a, Num(x)) && Is(lib, inp, b, Num(y)) && Is(lib, inp, c, Num(z))
    ensures Is(lib, inp, Binary(Lt, a, Binary(Plus, b, c)), Bool(x < y + z))
  {
    SumIs(lib, inp, b, c, y, z);
    OrderIs(lib, inp, a, Binary(Plus, b, c), x, y + z);
  }

  lemma TwoDifferences(lib: Library, inp: Input, a: Node, b: Node, c: Node, x: real, y: real, z: real)
    requires Is(lib, inp, a, Num(x)) && Is(lib, inp, b, Num(y)) && Is(lib, inp, c, Num(z))
    ensures Is(lib, inp, Binary(Minus, Binary(Minus, a, b), c), Num(x - y - z))
  {
    DifferenceIs(lib, inp, a, b, x, y);
    DifferenceIs(lib, inp, Binary(Minus, a, b), c, x - y, z);
  }

  /** A sum binds tighter than a comparison. */
  lemma SumBeforeOrder(lang: Lang, lib: Library, inp: Input, a: Node, b: Node, c: Node, g: string, h: string, k: string,
      x: real, y: real, z: real)
    requires Groups(lang, a, b, g, h) && Printable(lang, c) && k == Group(lang, c)
    requires Is(lib, inp, a, Num(x)) && Is(lib, inp, b, Num(y)) && Is(lib, inp, c, Num(z))
    ensures Means(lang, lib, inp, g + "+ " + h + "< " + k, Bool(x + y < z))
    ensures Means(lang, lib, inp, g + "< " + (h + "+ " + k), Bool(x < y + z))
  {
    SumLess(lib, inp, a, b, c, x, y, z);
    LessSum(lib, inp, a, b, c, x, y, z);
    SumFirst(lang, lib, inp, a, b, c, g, h, k, Bool(x + y < z));
    SumSecond(lang, lib, inp, a, b, c, g, h, k, Bool(x < y + z));
  }

  lemma SumFirst(lang: Lang, lib: Library, inp: Input, a: Node, b: Node, c: Node, g: string, h: string, k: string,
      v: Value)
    requires Groups(lang, a, b, g, h) && Printable(lang, c) && k == Group(lang, c)
    requires Is(lib, inp, Binary(Lt, Binary(Plus, a, b), c), v)
    ensures Means(lang, lib, inp, g + "+ " + h + "< " + k, v)
  {
    InfixSigns();
    LeftFirst(lang, lib, inp, Plus, Lt, a, b, c, g, h, k, "+ ", "< ", v);
  }

  lemma SumSecond(lang: Lang, lib: Library, inp: Input, a: Node, b: Node, c: Node, g: string, h: string, k: string,
      v: Value)
    requires Groups(lang, a, b, g, h) && Printable(lang, c) && k == Group(lang, c)
    requires Is(lib, inp, Binary(Lt, a, Binary(Plus, b, c)), v)
    ensures Means(lang, lib, inp, g + "< " + (h + "+ " + k), v)
  {
    InfixSigns();
    RightFirst(lang, lib, inp, Lt, Plus, a, b, c, g, h, k, "< ", "+ ", v);
  }

  /** Differences are taken from the left. */
  lemma LeftToRight(lang: Lang, lib: Library, inp: Input, a: Node, b: Node, c: Node, g: string, h: string, k: string,
      x: real, y: real, z: real)
    requires Groups(lang, a, b, g, h) && Printable(lang, c) && k == Group(lang, c)
    requires Is(lib, inp, a, Num(x)) && Is(lib, inp, b, Num(y)) && Is(lib, inp, c, Num(z))
    ensures Means(lang, lib, inp, g + "- " + h + "- " + k, Num(x - y - z))
  {
    TwoDifferences(lib, inp, a, b, c, x, y, z);
    DifferenceFirst(lang, lib, inp, a, b, c, g, h, k, Num(x - y - z));
  }

  lemma DifferenceFirst(lang: Lang, lib: Library, inp: Input, a: Node, b: Node, c: Node, g: string, h: string,
      k: string, v: Value)
    requires Groups(lang, a, b, g, h) && Printable(lang, c) && k == Group(lang, c)
    requires Is(lib, inp, Binary(Minus, Binary(Minus, a, b), c), v)
    ensures Means(lang, lib, inp, g + "- " + h + "- " + k, v)
  {
    InfixSigns();
    LeftFirst(lang, lib, inp, Minus, Minus, a, b, c, g, h, k, "- ", "- ", v);
  }

  /** A prefix operator binds tighter than any infix one. */
  lemma PrefixFirst(lang: Lang, lib: Library, inp: Input, a: Node, b: Node, g: string, h: string, p: bool, q: bool)
    requires Groups(lang, a, b, g, h) && Is(lib, inp, a, Bool(p)) && Is(lib, inp, b, Bool(q))
    ensures Means(lang, lib, inp, "! " + g + "&& " + h, Bool(!p && q))
  {
    InfixSigns();
    PrefixSigns();
    GroupSpells(lang, a);
    GroupSpells(lang, b);
    LogicValues(lib, inp, a, b, p, q);
    LogicValues(lib, inp, Unary(Not, a), b, !p, q);
    var l := CUn(Not, GroupTree(lang, a));
    UnarySpells(lang, Not, GroupTree(lang, a), a, g, "! ");
    BinarySpells(lang, And, l, GroupTree(lang, b), Unary(Not, a), b, "! " + g, h, "&& ");
    RenderedMeans(lang, lib, inp, CBin(And, l, GroupTree(lang, b)), "! " + g + "&& " + h, Bool(!p && q));
  }

  // ----- Literals -----

  /** The text of one token that is a whole tree. */
  lemma LeafMeans(lang: Lang, lib: Library, inp: Input, c: Cst, t: Token, text: string, v: Value)
    requires Known(lang) && WF(c) && Yield(c) == [t] && TokenIn(t, WordsOf(lang)) && text == TokenText(t) + " "
    requires Need(c) == 1 && Is(lib, inp, Strip(c), v)
    ensures ParseExprF(lang, text) == Ok(Strip(c)) && Means(lang, lib, inp, text, v)
  {
    RenderOne(t);
    RenderedIsRead(lang, c, text);
  }

  lemma LiteralLaws(lang: Lang, lib: Library, inp: Input)
    requires Known(lang)
    ensures ParseExprF(lang, "true ").Ok? && Means(lang, lib, inp, "true ", Bool(true))
    ensures ParseExprF(lang, "false ").Ok? && Means(lang, lib, inp, "false ", Bool(false))
  {
    assert "true" + " " == "true " && "false" + " " == "false ";
    LeafMeans(lang, lib, inp, CBool(true), TTrue, "true ", Bool(true));
    LeafMeans(lang, lib, inp, CBool(false), TFalse, "false ", Bool(false));
  }

  /** Digits, or digits, a dot and digits. */
  ghost predicate IsNumeral(s: string)
  {
    && s != "" && '0' <= s[0] <= '9'
    && (forall i :: 0 <= i < |s| ==> '0' <= s[i] <= '9' || s[i] == '.')
    && (forall i, j :: 0 <= i < j < |s| ==> s[i] != '.' || s[j] != '.')
  }

  lemma {:induction false} NumeralIsRead(s: string, seenDot: bool)
    requires forall i :: 0 <= i < |s| ==> '0' <= s[i] <= '9' || (s[i] == '.' && !seenDot)
    requires forall i, j :: 0 <= i < j < |s| ==> s[i] != '.' || s[j] != '.'
    ensures NumberLen(s, seenDot) == |s|
    decreases |s|
  {
    if s != "" {
      NumeralIsRead(s[1..], seenDot || s[0] == '.');
    }
  }

  lemma NumberLaw(lang: Lang, lib: Library, inp: Input, s: string, x: real)
    requires Known(lang) && IsNumeral(s) && lang.parseFloat(s) == Some(x)
    ensures ParseExprF(lang, s + " ").Ok? && Means(lang, lib, inp, s + " ", Num(x))
  {
    NumeralIsRead(s, false);
    LeafMeans(lang, lib, inp, CNum(s, x), TNumber(s, x), s + " ", Num(x));
  }

  /** A text without quotes, backslashes, newlines and tabs stands for itself between quotes. */
  lemma QuotedLaw(lang: Lang, lib: Library, inp: Input, s: string)
    requires Known(lang) && forall i :: 0 <= i < |s| ==> s[i] != '"' && s[i] != '\\' && s[i] != '\n' && s[i] != '\t'
    ensures ParseExprF(lang, "\"" + s + "\" ").Ok? && Means(lang, lib, inp, "\"" + s + "\" ", Str(s))
  {
    EscapesNothing(s);
    assert TokenText(TString(s)) + " " == "\"" + s + "\" ";
    LeafMeans(lang, lib, inp, CStr(s), TString(s), "\"" + s + "\" ", Str(s));
  }

  lemma {:induction false} EscapesNothing(s: string)
    requires forall i :: 0 <= i < |s| ==> s[i] != '"' && s[i] != '\\' && s[i] != '\n' && s[i] != '\t'
    ensures Escape(s, '"') == s
    decreases |s|
  {
    if s != "" {
      EscapesNothing(s[1..]);
    }
  }

  /** What the escapes stand for: a newline, a tab, and the character itself. */
  lemma EscapesStandFor(rest: string, quote: char, acc: string, n: nat)
    requires quote == '"' || quote == '\''
    ensures StringF("\\n" + rest, quote, acc, n) == StringF(rest, quote, acc + "\n", n + 2)
    ensures StringF("\\t" + rest, quote, acc, n) == StringF(rest, quote, acc + "\t", n + 2)
    ensures StringF("\\\\" + rest, quote, acc, n) == StringF(rest, quote, acc + "\\", n + 2)
    ensures StringF("\\\"" + rest, quote, acc, n) == StringF(rest, quote, acc + "\"", n + 2)
    ensures StringF("\\\'" + rest, quote, acc, n) == StringF(rest, quote, acc + "\'", n + 2)
  {
    assert ("\\n" + rest)[2..] == rest && ("\\t" + rest)[2..] == rest && ("\\\\" + rest)[2..] == rest;
    assert ("\\\"" + rest)[2..] == rest && ("\\\'" + rest)[2..] == rest;
  }
}
