/** The grammar of the policy language as concrete syntax trees, independent of any parser:
    a tree says which tokens it spells (Yield), which syntax tree it means (Strip), how deep
    it nests (Need) and whether it obeys the precedence table (WF). */
module PolicyGrammar {
  import opened PolicyAst

  datatype Cst =
    | CNum(text: string, num: real)
    | CStr(s: string)
    | CBool(b: bool)
    | CIdent(name: string)
    | CList(es: seq<Cst>)
    | CCall(name: string, es: seq<Cst>)
    | CParen(e: Cst)
    | CUn(op: UnOp, x: Cst)
    | CBin(bop: BinOp, l: Cst, r: Cst)

  /** Binding strength: or 0, and 1, comparison 2, additive 3. */
  function OpLevel(op: BinOp): nat
  {
    match op
    case Or => 0
    case And => 1
    case Plus => 3
    case Minus => 3
    case _ => 2
  }

  /** The loosest left operand: comparisons do not associate, the others do to the left. */
  function LeftLevel(op: BinOp): nat
  {
    if OpLevel(op) == 2 then 3 else OpLevel(op)
  }

  function Level(c: Cst): nat
  {
    match c
    case CBin(op, _, _) => OpLevel(op)
    case CUn(_, _) => 4
    case _ => 5
  }

  predicate WF(c: Cst)
  {
    match c
    case CList(es) => WFs(es)
    case CCall(_, es) => WFs(es)
    case CParen(e) => WF(e)
    case CUn(_, x) => WF(x) && Level(x) >= 4
    case CBin(op, l, r) => WF(l) && WF(r) && Level(l) >= LeftLevel(op) && Level(r) > OpLevel(op)
    case _ => true
  }

  predicate WFs(cs: seq<Cst>)
  {
    cs == [] || (WF(cs[0]) && WFs(cs[1..]))
  }

  function Yield(c: Cst): (ts: seq<Token>)
    ensures |ts| > 0
  {
    match c
    case CNum(text, num) => [TNumber(text, num)]
    case CStr(s) => [TString(s)]
    case CBool(b) => [if b then TTrue else TFalse]
    case CIdent(name) => [TIdent(name)]
    case CList(es) => [TLBracket] + Yields(es) + [TRBracket]
    case CCall(name, es) => [TIdent(name), TLParen] + Yields(es) + [TRParen]
    case CParen(e) => [TLParen] + Yield(e) + [TRParen]
    case CUn(op, x) => [UnToken(op)] + Yield(x)
    case CBin(op, l, r) => Yield(l) + [BinToken(op)] + Yield(r)
  }

  function Yields(cs: seq<Cst>): seq<Token>
  {
    if cs == [] then []
    else if |cs| == 1 then Yield(cs[0])
    else Yield(cs[0]) + [TComma] + Yields(cs[1..])
  }

  function Strip(c: Cst): Node
  {
    match c
    case CNum(_, num) => Lit(Num(num))
    case CStr(s) => Lit(Str(s))
    case CBool(b) => Lit(Bool(b))
    case CIdent(name) => Ident(name)
    case CList(es) => ListLit(Strips(es))
    case CCall(name, es) => Call(name, Strips(es))
    case CParen(e) => Strip(e)
    case CUn(op, x) => Unary(op, Strip(x))
    case CBin(op, l, r) => Binary(op, Strip(l), Strip(r))
  }

  function Strips(cs: seq<Cst>): (ns: seq<Node>)
    ensures |ns| == |cs|
  {
    if cs == [] then [] else [Strip(cs[0])] + Strips(cs[1..])
  }

  function Max(a: nat, b: nat): nat
  {
    if a < b then b else a
  }

  /** Levels the parser enters below the or-level it starts from: one per primary and per
      prefix operator, and one more per bracketed expression. */
  function Need(c: Cst): (n: nat)
    ensures n > 0
  {
    match c
    case CList(es) => 1 + Needs(es)
    case CCall(_, es) => 1 + Needs(es)
    case CParen(e) => 2 + Need(e)
    case CUn(_, x) => 1 + Need(x)
    case CBin(_, l, r) => Max(Need(l), Need(r))
    case _ => 1
  }

  function Needs(cs: seq<Cst>): nat
  {
    if cs == [] then 0 else Max(1 + Need(cs[0]), Needs(cs[1..]))
  }

  // ----- Sizes and shapes -----

  lemma {:induction false} YieldHasNoEof(c: Cst)
    ensures TEof !in Yield(c)
    decreases c
  {
    match c
    case CList(es) => YieldsHaveNoEof(es);
    case CCall(_, es) => YieldsHaveNoEof(es);
    case CParen(e) => YieldHasNoEof(e);
    case CUn(_, x) => YieldHasNoEof(x);
    case CBin(_, l, r) => YieldHasNoEof(l); YieldHasNoEof(r);
    case _ =>
  }

  lemma {:induction false} YieldsHaveNoEof(cs: seq<Cst>)
    ensures TEof !in Yields(cs)
    decreases cs
  {
    if cs != [] {
      YieldHasNoEof(cs[0]);
      YieldsHaveNoEof(cs[1..]);
    }
  }

  /** A tree never has more nodes than the text that spells it has tokens. */
  lemma {:induction false} NodesWithinTokens(c: Cst)
    ensures NodeCount(Strip(c)) <= |Yield(c)|
    decreases c
  {
    match c
    case CList(es) => ListNodesWithinTokens(es);
    case CCall(_, es) => ListNodesWithinTokens(es);
    case CParen(e) => NodesWithinTokens(e);
    case CUn(_, x) => NodesWithinTokens(x);
    case CBin(_, l, r) => NodesWithinTokens(l); NodesWithinTokens(r);
    case _ =>
  }

  lemma {:induction false} ListNodesWithinTokens(cs: seq<Cst>)
    ensures NodeCounts(Strips(cs)) <= |Yields(cs)|
    decreases cs
  {
    if cs != [] {
      NodesWithinTokens(cs[0]);
      ListNodesWithinTokens(cs[1..]);
      assert Strips(cs)[1..] == Strips(cs[1..]);
    }
  }

  // ----- The printer: only the parentheses the precedence table needs -----

  /** Brackets c when it binds less tightly than its position asks for. */
  function Wrap(c: Cst, level: nat): Cst
  {
    if Level(c) < level then CParen(c) else c
  }

  /** What the lexer accepts: which texts spell which numbers, and which texts are names. */
  datatype Words = Words(number: (string, real) -> bool, name: string -> bool)

  ghost predicate TokenIn(t: Token, w: Words)
  {
    match t
    case TNumber(text, num) => w.number(text, num)
    case TIdent(name) => w.name(name)
    case TEof => false
    case _ => true
  }

  ghost predicate AllIn(ts: seq<Token>, w: Words)
  {
    forall i :: 0 <= i < |ts| ==> TokenIn(ts[i], w)
  }

  /** A syntax tree some text can spell. */
  ghost predicate Spellable(n: Node, w: Words)
  {
    match n
    case Lit(Bool(_)) => true
    case Lit(Str(_)) => true
    case Lit(Num(v)) => exists text :: w.number(text, v)
    case Lit(List(_)) => false
    case ListLit(es) => AllSpellable(es, w)
    case Ident(name) => w.name(name)
    case Call(name, es) => w.name(name) && AllSpellable(es, w)
    case Unary(_, x) => Spellable(x, w)
    case Binary(_, l, r) => Spellable(l, w) && Spellable(r, w)
  }

  ghost predicate AllSpellable(ns: seq<Node>, w: Words)
  {
    ns == [] || (Spellable(ns[0], w) && AllSpellable(ns[1..], w))
  }

  ghost function Minimal(n: Node, w: Words): (c: Cst)
    requires Spellable(n, w)
  {
    match n
    case Lit(Bool(b)) => CBool(b)
    case Lit(Str(s)) => CStr(s)
    case Lit(Num(v)) => var text :| w.number(text, v); CNum(text, v)
    case ListLit(es) => CList(Minimals(es, w))
    case Ident(name) => CIdent(name)
    case Call(name, es) => CCall(name, Minimals(es, w))
    case Unary(op, x) => CUn(op, Wrap(Minimal(x, w), 4))
    case Binary(op, l, r) =>
      CBin(op, Wrap(Minimal(l, w), LeftLevel(op)), Wrap(Minimal(r, w), OpLevel(op) + 1))
  }

  ghost function Minimals(ns: seq<Node>, w: Words): seq<Cst>
    requires AllSpellable(ns, w)
  {
    if ns == [] then [] else [Minimal(ns[0], w)] + Minimals(ns[1..], w)
  }

  /** The printed tree obeys the grammar and means the tree it was printed from. */
  lemma {:induction false} MinimalIsFaithful(n: Node, w: Words)
    requires Spellable(n, w)
    ensures WF(Minimal(n, w)) && Strip(Minimal(n, w)) == n
    decreases n
  {
    match n
    case ListLit(es) => MinimalsAreFaithful(es, w);
    case Call(_, es) => MinimalsAreFaithful(es, w);
    case Unary(_, x) => MinimalIsFaithful(x, w);
    case Binary(_, l, r) => MinimalIsFaithful(l, w); MinimalIsFaithful(r, w);
    case _ =>
  }

  lemma {:induction false} MinimalsAreFaithful(ns: seq<Node>, w: Words)
    requires AllSpellable(ns, w)
    ensures WFs(Minimals(ns, w)) && Strips(Minimals(ns, w)) == ns
    decreases ns
  {
    if ns != [] {
      MinimalIsFaithful(ns[0], w);
      MinimalsAreFaithful(ns[1..], w);
      assert Minimals(ns, w)[1..] == Minimals(ns[1..], w);
    }
  }

  /** Every grammatical spelling of a tree has at least the tokens and the nesting of the
      printed one, and a spelling without outer parentheses sits at the same level. */
  lemma {:induction false} MinimalIsLeast(c: Cst, w: Words)
    requires WF(c) && Spellable(Strip(c), w)
    ensures var m := Minimal(Strip(c), w);
            && |Yield(m)| <= |Yield(c)|
            && Need(m) <= Need(c)
            && (Level(c) <= Level(m) || (|Yield(m)| + 2 <= |Yield(c)| && Need(m) + 2 <= Need(c)))
    decreases c
  {
    match c
    case CList(es) => MinimalsAreLeast(es, w);
    case CCall(_, es) => MinimalsAreLeast(es, w);
    case CParen(e) => MinimalIsLeast(e, w);
    case CUn(_, x) =>
      MinimalIsLeast(x, w);
      WrapIsLeast(x, Minimal(Strip(x), w), 4);
    case CBin(op, l, r) =>
      MinimalIsLeast(l, w);
      MinimalIsLeast(r, w);
      WrapIsLeast(l, Minimal(Strip(l), w), LeftLevel(op));
      WrapIsLeast(r, Minimal(Strip(r), w), OpLevel(op) + 1);
    case _ =>
  }

  /** Bracketing the least spelling where c needs no bracket costs no more than c. */
  lemma WrapIsLeast(c: Cst, m: Cst, level: nat)
    requires Level(c) >= level && |Yield(m)| <= |Yield(c)| && Need(m) <= Need(c)
    requires Level(c) <= Level(m) || (|Yield(m)| + 2 <= |Yield(c)| && Need(m) + 2 <= Need(c))
    ensures |Yield(Wrap(m, level))| <= |Yield(c)| && Need(Wrap(m, level)) <= Need(c)
  {}

  lemma {:induction false} MinimalsAreLeast(cs: seq<Cst>, w: Words)
    requires WFs(cs) && AllSpellable(Strips(cs), w)
    ensures |Yields(Minimals(Strips(cs), w))| <= |Yields(cs)|
    ensures Needs(Minimals(Strips(cs), w)) <= Needs(cs)
    decreases cs
  {
    if cs != [] {
      var ms := Minimals(Strips(cs), w);
      assert Strips(cs)[1..] == Strips(cs[1..]);
      MinimalIsLeast(cs[0], w);
      MinimalsAreLeast(cs[1..], w);
      assert ms[1..] == Minimals(Strips(cs[1..]), w);
      MinimalsHaveLength(Strips(cs), w);
    }
  }

  lemma {:induction false} MinimalsHaveLength(ns: seq<Node>, w: Words)
    requires AllSpellable(ns, w)
    ensures |Minimals(ns, w)| == |ns|
    decreases ns
  {
    if ns != [] {
      MinimalsHaveLength(ns[1..], w);
    }
  }

  /** The printed tokens are words of the lexer. */
  lemma {:induction false} MinimalIsInWords(n: Node, w: Words)
    requires Spellable(n, w)
    ensures AllIn(Yield(Minimal(n, w)), w)
    decreases n
  {
    match n
    case ListLit(es) => MinimalsAreInWords(es, w);
    case Call(_, es) => MinimalsAreInWords(es, w);
    case Unary(_, x) => MinimalIsInWords(x, w);
    case Binary(_, l, r) => MinimalIsInWords(l, w); MinimalIsInWords(r, w);
    case _ =>
  }

  lemma {:induction false} MinimalsAreInWords(ns: seq<Node>, w: Words)
    requires AllSpellable(ns, w)
    ensures AllIn(Yields(Minimals(ns, w)), w)
    decreases ns
  {
    if ns != [] {
      MinimalIsInWords(ns[0], w);
      MinimalsAreInWords(ns[1..], w);
      assert Minimals(ns, w)[1..] == Minimals(ns[1..], w);
    }
  }

  /** Whatever is spelled with words of the lexer can be printed again. */
  lemma {:induction false} WordsAreSpellable(c: Cst, w: Words)
    requires AllIn(Yield(c), w)
    ensures Spellable(Strip(c), w)
    decreases c
  {
    match c
    case CNum(_, _) => assert TokenIn(Yield(c)[0], w);
    case CIdent(_) => assert TokenIn(Yield(c)[0], w);
    case CList(es) =>
      InWordsOfPart([TLBracket], Yields(es), [TRBracket], Yield(c), w);
      ListWordsAreSpellable(es, w);
    case CCall(name, es) =>
      assert TokenIn(Yield(c)[0], w);
      InWordsOfPart([TIdent(name), TLParen], Yields(es), [TRParen], Yield(c), w);
      ListWordsAreSpellable(es, w);
    case CParen(e) =>
      InWordsOfPart([TLParen], Yield(e), [TRParen], Yield(c), w);
      WordsAreSpellable(e, w);
    case CUn(op, x) =>
      InWordsOfEnd([UnToken(op)], Yield(x), Yield(c), w);
      WordsAreSpellable(x, w);
    case CBin(op, l, r) =>
      InWordsOfEnd(Yield(l) + [BinToken(op)], Yield(r), Yield(c), w);
      InWordsOfStart(Yield(l), [BinToken(op)], Yield(r), Yield(c), w);
      WordsAreSpellable(l, w);
      WordsAreSpellable(r, w);
    case _ =>
  }

  lemma InWordsOfPart(a: seq<Token>, part: seq<Token>, b: seq<Token>, ts: seq<Token>, w: Words)
    requires AllIn(ts, w) && ts == a + part + b
    ensures AllIn(part, w)
  {
    forall i | 0 <= i < |part|
      ensures TokenIn(part[i], w)
    {
      assert part[i] == ts[|a| + i];
    }
  }

  lemma InWordsOfEnd(a: seq<Token>, part: seq<Token>, ts: seq<Token>, w: Words)
    requires AllIn(ts, w) && ts == a + part
    ensures AllIn(part, w)
  {
    assert ts == a + part + [];
    InWordsOfPart(a, part, [], ts, w);
  }

  lemma InWordsOfStart(part: seq<Token>, b: seq<Token>, c: seq<Token>, ts: seq<Token>, w: Words)
    requires AllIn(ts, w) && ts == part + b + c
    ensures AllIn(part, w)
  {
    assert ts == [] + part + (b + c);
    InWordsOfPart([], part, b + c, ts, w);
  }

  lemma {:induction false} ListWordsAreSpellable(cs: seq<Cst>, w: Words)
    requires AllIn(Yields(cs), w)
    ensures AllSpellable(Strips(cs), w)
    decreases cs
  {
    if cs != [] {
      if |cs| > 1 {
        InWordsOfStart(Yield(cs[0]), [TComma], Yields(cs[1..]), Yields(cs), w);
        InWordsOfEnd(Yield(cs[0]) + [TComma], Yields(cs[1..]), Yields(cs), w);
      }
      WordsAreSpellable(cs[0], w);
      ListWordsAreSpellable(cs[1..], w);
      assert Strips(cs)[1..] == Strips(cs[1..]);
    }
  }
}
