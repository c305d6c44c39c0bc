/** The parser accepts exactly the grammar: what it returns is spelled by a grammatical tree
    (soundness), and every grammatical tree within the depth budget is found (completeness). */
module PolicyParserProof {
  import opened PolicyAst
  import opened PolicyGrammar
  import opened PolicyParser

  /** The tokens ys stand at pos. */
  ghost predicate At(ts: seq<Token>, pos: nat, ys: seq<Token>)
  {
    pos + |ys| <= |ts| && ts[pos..pos + |ys|] == ys
  }

  lemma AtSplit(ts: seq<Token>, pos: nat, a: seq<Token>, b: seq<Token>)
    requires At(ts, pos, a + b)
    ensures At(ts, pos, a) && At(ts, pos + |a|, b)
  {
    var ab := ts[pos..pos + |a + b|];
    assert ts[pos..pos + |a|] == ab[..|a|] == a;
    assert ts[pos + |a|..pos + |a| + |b|] == ab[|a|..] == b;
  }

  lemma AtJoin(ts: seq<Token>, pos: nat, a: seq<Token>, b: seq<Token>)
    requires At(ts, pos, a) && At(ts, pos + |a|, b)
    ensures At(ts, pos, a + b)
  {
    assert ts[pos..pos + |a + b|] == a + b;
  }

  lemma AtOne(ts: seq<Token>, pos: nat, t: Token)
    requires pos < |ts|
    ensures At(ts, pos, [t]) <==> ts[pos] == t
  {
    assert ts[pos..pos + 1] == [ts[pos]];
  }

  // ----- Soundness -----

  /** c is a grammatical spelling of n that stands at start and ends at end. */
  ghost predicate Spells(ts: seq<Token>, c: Cst, n: Node, start: nat, end: nat)
  {
    WF(c) && Strip(c) == n && At(ts, start, Yield(c)) && end == start + |Yield(c)|
  }

  lemma JoinBinary(ts: seq<Token>, op: BinOp, l: Cst, r: Cst, start: nat, mid: nat, end: nat)
    requires Spells(ts, l, Strip(l), start, mid) && Level(l) >= LeftLevel(op)
    requires mid < |ts| && ts[mid] == BinToken(op)
    requires Spells(ts, r, Strip(r), mid + 1, end) && Level(r) > OpLevel(op)
    ensures Spells(ts, CBin(op, l, r), Binary(op, Strip(l), Strip(r)), start, end)
  {
    AtOne(ts, mid, BinToken(op));
    AtJoin(ts, start, Yield(l), [BinToken(op)]);
    AtJoin(ts, start, Yield(l) + [BinToken(op)], Yield(r));
  }

  /** cs are grammatical spellings of ns, separated by commas, that stand at start up to end. */
  ghost predicate SpellAll(ts: seq<Token>, cs: seq<Cst>, ns: seq<Node>, start: nat, end: nat)
  {
    WFs(cs) && Strips(cs) == ns && At(ts, start, Yields(cs)) && end == start + |Yields(cs)|
  }

  lemma JoinLast(ts: seq<Token>, c: Cst, start: nat, end: nat)
    requires Spells(ts, c, Strip(c), start, end)
    ensures SpellAll(ts, [c], [Strip(c)], start, end) && Needs([c]) == 1 + Need(c)
  {
    assert [c][1..] == [];
  }

  lemma JoinCons(ts: seq<Token>, c: Cst, cs: seq<Cst>, ns: seq<Node>, start: nat, mid: nat, end: nat)
    requires Spells(ts, c, Strip(c), start, mid) && mid < |ts| && ts[mid] == TComma
    requires SpellAll(ts, cs, ns, mid + 1, end) && cs != []
    ensures SpellAll(ts, [c] + cs, [Strip(c)] + ns, start, end)
    ensures Needs([c] + cs) == Max(1 + Need(c), Needs(cs))
  {
    assert ([c] + cs)[1..] == cs;
    AtOne(ts, mid, TComma);
    AtJoin(ts, start, Yield(c), [TComma]);
    AtJoin(ts, start, Yield(c) + [TComma], Yields(cs));
  }

  lemma JoinBracket(ts: seq<Token>, open: seq<Token>, inner: seq<Token>, close: Token, start: nat)
    requires At(ts, start, open) && At(ts, start + |open|, inner)
    requires start + |open| + |inner| < |ts| && ts[start + |open| + |inner|] == close
    ensures At(ts, start, open + inner + [close])
  {
    AtJoin(ts, start, open, inner);
    AtOne(ts, start + |open| + |inner|, close);
    AtJoin(ts, start, open + inner, [close]);
  }

  lemma JoinList(ts: seq<Token>, es: seq<Cst>, ns: seq<Node>, start: nat, end: nat)
    requires start < |ts| && ts[start] == TLBracket && end < |ts| && ts[end] == TRBracket
    requires SpellAll(ts, es, ns, start + 1, end)
    ensures Spells(ts, CList(es), ListLit(ns), start, end + 1)
  {
    AtOne(ts, start, TLBracket);
    JoinBracket(ts, [TLBracket], Yields(es), TRBracket, start);
  }

  lemma JoinCall(ts: seq<Token>, name: string, es: seq<Cst>, ns: seq<Node>, start: nat, end: nat)
    requires start + 1 < |ts| && ts[start] == TIdent(name) && ts[start + 1] == TLParen
    requires end < |ts| && ts[end] == TRParen && SpellAll(ts, es, ns, start + 2, end)
    ensures Spells(ts, CCall(name, es), Call(name, ns), start, end + 1)
  {
    assert ts[start..start + 2] == [TIdent(name), TLParen];
    JoinBracket(ts, [TIdent(name), TLParen], Yields(es), TRParen, start);
  }

  lemma JoinParen(ts: seq<Token>, e: Cst, n: Node, start: nat, end: nat)
    requires start < |ts| && ts[start] == TLParen && end < |ts| && ts[end] == TRParen
    requires Spells(ts, e, n, start + 1, end)
    ensures Spells(ts, CParen(e), n, start, end + 1)
  {
    AtOne(ts, start, TLParen);
    JoinBracket(ts, [TLParen], Yield(e), TRParen, start);
  }

  lemma JoinUnary(ts: seq<Token>, op: UnOp, x: Cst, n: Node, start: nat, end: nat)
    requires start < |ts| && ts[start] == UnToken(op) && Spells(ts, x, n, start + 1, end) && Level(x) >= 4
    ensures Spells(ts, CUn(op, x), Unary(op, n), start, end)
  {
    AtOne(ts, start, UnToken(op));
    AtJoin(ts, start, [UnToken(op)], Yield(x));
  }

  lemma {:induction false} SoundOr(ts: seq<Token>, pos: nat, d: int) returns (c: Cst)
    requires Ended(ts) && pos < |ts| && OrF(ts, pos, d).Done?
    ensures Spells(ts, c, OrF(ts, pos, d).node, pos, OrF(ts, pos, d).pos)
    ensures d + 1 + Need(c) <= MAX_DEPTH
    decreases |ts| - pos, 7
  {
    c := SoundAnd(ts, pos, d + 1);
    c := SoundOrLoop(ts, c, pos, AndF(ts, pos, d + 1).pos, d + 1);
  }

  lemma {:induction false} SoundOrLoop(ts: seq<Token>, l: Cst, start: nat, pos: nat, d: int) returns (c: Cst)
    requires Ended(ts) && pos < |ts| && OrLoopF(ts, Strip(l), pos, d).Done?
    requires Spells(ts, l, Strip(l), start, pos) && d + Need(l) <= MAX_DEPTH
    ensures Spells(ts, c, OrLoopF(ts, Strip(l), pos, d).node, start, OrLoopF(ts, Strip(l), pos, d).pos)
    ensures d + Need(c) <= MAX_DEPTH
    decreases |ts| - pos, 8
  {
    if ts[pos] != TOr {
      c := l;
    } else {
      var r := SoundAnd(ts, pos + 1, d);
      var end := AndF(ts, pos + 1, d).pos;
      JoinBinary(ts, Or, l, r, start, pos, end);
      c := SoundOrLoop(ts, CBin(Or, l, r), start, end, d);
    }
  }

  lemma {:induction false} SoundAnd(ts: seq<Token>, pos: nat, d: int) returns (c: Cst)
    requires Ended(ts) && pos < |ts| && AndF(ts, pos, d).Done?
    ensures Spells(ts, c, AndF(ts, pos, d).node, pos, AndF(ts, pos, d).pos)
    ensures Level(c) >= 1 && d + Need(c) <= MAX_DEPTH
    decreases |ts| - pos, 6
  {
    c := SoundCmp(ts, pos, d);
    c := SoundAndLoop(ts, c, pos, CmpF(ts, pos, d).pos, d);
  }

  lemma {:induction false} SoundAndLoop(ts: seq<Token>, l: Cst, start: nat, pos: nat, d: int) returns (c: Cst)
    requires Ended(ts) && pos < |ts| && AndLoopF(ts, Strip(l), pos, d).Done?
    requires Spells(ts, l, Strip(l), start, pos) && Level(l) >= 1 && d + Need(l) <= MAX_DEPTH
    ensures Spells(ts, c, AndLoopF(ts, Strip(l), pos, d).node, start, AndLoopF(ts, Strip(l), pos, d).pos)
    ensures Level(c) >= 1 && d + Need(c) <= MAX_DEPTH
    decreases |ts| - pos, 8
  {
    if ts[pos] != TAnd {
      c := l;
    } else {
      var r := SoundCmp(ts, pos + 1, d);
      var end := CmpF(ts, pos + 1, d).pos;
      JoinBinary(ts, And, l, r, start, pos, end);
      c := SoundAndLoop(ts, CBin(And, l, r), start, end, d);
    }
  }

  lemma {:induction false} SoundCmp(ts: seq<Token>, pos: nat, d: int) returns (c: Cst)
    requires Ended(ts) && pos < |ts| && CmpF(ts, pos, d).Done?
    ensures Spells(ts, c, CmpF(ts, pos, d).node, pos, CmpF(ts, pos, d).pos)
    ensures Level(c) >= 2 && d + Need(c) <= MAX_DEPTH
    decreases |ts| - pos, 5
  {
    c := SoundAdd(ts, pos, d);
    var mid := AddF(ts, pos, d).pos;
    if IsCmpToken(ts[mid]) {
      var r := SoundAdd(ts, mid + 1, d);
      var op := CmpOp(ts[mid]);
      JoinBinary(ts, op, c, r, pos, mid, CmpF(ts, pos, d).pos);
      c := CBin(op, c, r);
    }
  }

  lemma {:induction false} SoundAdd(ts: seq<Token>, pos: nat, d: int) returns (c: Cst)
    requires Ended(ts) && pos < |ts| && AddF(ts, pos, d).Done?
    ensures Spells(ts, c, AddF(ts, pos, d).node, pos, AddF(ts, pos, d).pos)
    ensures Level(c) >= 3 && d + Need(c) <= MAX_DEPTH
    decreases |ts| - pos, 4
  {
    c := SoundUnary(ts, pos, d);
    c := SoundAddLoop(ts, c, pos, UnaryF(ts, pos, d).pos, d);
  }

  lemma {:induction false} SoundAddLoop(ts: seq<Token>, l: Cst, start: nat, pos: nat, d: int) returns (c: Cst)
    requires Ended(ts) && pos < |ts| && AddLoopF(ts, Strip(l), pos, d).Done?
    requires Spells(ts, l, Strip(l), start, pos) && Level(l) >= 3 && d + Need(l) <= MAX_DEPTH
    ensures Spells(ts, c, AddLoopF(ts, Strip(l), pos, d).node, start, AddLoopF(ts, Strip(l), pos, d).pos)
    ensures Level(c) >= 3 && d + Need(c) <= MAX_DEPTH
    decreases |ts| - pos, 8
  {
    if ts[pos] != TPlus && ts[pos] != TMinus {
      c := l;
    } else {
      var op := if ts[pos] == TPlus then Plus else Minus;
      var r := SoundUnary(ts, pos + 1, d);
      var end := UnaryF(ts, pos + 1, d).pos;
      JoinBinary(ts, op, l, r, start, pos, end);
      c := SoundAddLoop(ts, CBin(op, l, r), start, end, d);
    }
  }

  lemma {:induction false} SoundUnary(ts: seq<Token>, pos: nat, d: int) returns (c: Cst)
    requires Ended(ts) && pos < |ts| && UnaryF(ts, pos, d).Done?
    ensures Spells(ts, c, UnaryF(ts, pos, d).node, pos, UnaryF(ts, pos, d).pos)
    ensures Level(c) >= 4 && d + Need(c) <= MAX_DEPTH
    decreases |ts| - pos, 3
  {
    if ts[pos] != TNot && ts[pos] != TMinus {
      c := SoundPrimary(ts, pos, d);
    } else {
      var op := if ts[pos] == TNot then Not else Neg;
      var x := SoundUnary(ts, pos + 1, d + 1);
      JoinUnary(ts, op, x, Strip(x), pos, UnaryF(ts, pos, d).pos);
      c := CUn(op, x);
    }
  }

  lemma {:induction false} SoundPrimary(ts: seq<Token>, pos: nat, d: int) returns (c: Cst)
    requires Ended(ts) && pos < |ts| && PrimaryF(ts, pos, d).Done?
    ensures Spells(ts, c, PrimaryF(ts, pos, d).node, pos, PrimaryF(ts, pos, d).pos)
    ensures Level(c) == 5 && d + Need(c) <= MAX_DEPTH
    decreases |ts| - pos, 2
  {
    var t := ts[pos];
    if t == TLBracket {
      c := SoundList(ts, pos, d);
    } else if t == TLParen {
      c := SoundParen(ts, pos, d);
    } else if t.TIdent? && ts[pos + 1] == TLParen {
      c := SoundCall(ts, pos, d);
    } else {
      AtOne(ts, pos, t);
      c := SoundLeaf(t);
    }
  }

  lemma SoundLeaf(t: Token) returns (c: Cst)
    requires t.TNumber? || t.TString? || t.TTrue? || t.TFalse? || t.TIdent?
    ensures WF(c) && Yield(c) == [t] && Level(c) == 5 && Need(c) == 1
    ensures Strip(c) == match t
                        case TNumber(_, num) => Lit(Num(num))
                        case TString(s) => Lit(Str(s))
                        case TTrue => Lit(Bool(true))
                        case TIdent(name) => Ident(name)
                        case _ => Lit(Bool(false))
  {
    match t
    case TNumber(text, num) => c := CNum(text, num);
    case TString(s) => c := CStr(s);
    case TTrue => c := CBool(true);
    case TIdent(name) => c := CIdent(name);
    case _ => c := CBool(false);
  }

  lemma {:induction false} SoundList(ts: seq<Token>, pos: nat, d: int) returns (c: Cst)
    requires Ended(ts) && pos < |ts| && ts[pos] == TLBracket && PrimaryF(ts, pos, d).Done?
    ensures Spells(ts, c, PrimaryF(ts, pos, d).node, pos, PrimaryF(ts, pos, d).pos)
    ensures Level(c) == 5 && d + Need(c) <= MAX_DEPTH
    decreases |ts| - pos, 1
  {
    var es, end := SoundItems(ts, pos + 1, d + 1, TRBracket);
    JoinList(ts, es, Strips(es), pos, end);
    c := CList(es);
  }

  lemma {:induction false} SoundParen(ts: seq<Token>, pos: nat, d: int) returns (c: Cst)
    requires Ended(ts) && pos < |ts| && ts[pos] == TLParen && PrimaryF(ts, pos, d).Done?
    ensures Spells(ts, c, PrimaryF(ts, pos, d).node, pos, PrimaryF(ts, pos, d).pos)
    ensures Level(c) == 5 && d + Need(c) <= MAX_DEPTH
    decreases |ts| - pos, 1
  {
    var e := SoundOr(ts, pos + 1, d + 1);
    JoinParen(ts, e, Strip(e), pos, OrF(ts, pos + 1, d + 1).pos);
    c := CParen(e);
  }

  lemma {:induction false} SoundCall(ts: seq<Token>, pos: nat, d: int) returns (c: Cst)
    requires Ended(ts) && pos < |ts| - 1 && ts[pos].TIdent? && ts[pos + 1] == TLParen
    requires PrimaryF(ts, pos, d).Done?
    ensures Spells(ts, c, PrimaryF(ts, pos, d).node, pos, PrimaryF(ts, pos, d).pos)
    ensures Level(c) == 5 && d + Need(c) <= MAX_DEPTH
    decreases |ts| - pos, 1
  {
    var es, end := SoundItems(ts, pos + 2, d + 1, TRParen);
    JoinCall(ts, ts[pos].name, es, Strips(es), pos, end);
    c := CCall(ts[pos].name, es);
  }

  /** end is where the closing token stands. */
  lemma {:induction false} SoundItems(ts: seq<Token>, pos: nat, d: int, close: Token)
    returns (cs: seq<Cst>, end: nat)
    requires Ended(ts) && pos < |ts| && d <= MAX_DEPTH && close != TEof && ItemsF(ts, pos, d, close).Items?
    ensures SpellAll(ts, cs, ItemsF(ts, pos, d, close).nodes, pos, end) && d + Needs(cs) <= MAX_DEPTH
    ensures end < |ts| && ts[end] == close && end + 1 == ItemsF(ts, pos, d, close).next
    decreases |ts| - pos, 10
  {
    if ts[pos] == close {
      cs, end := [], pos;
    } else {
      cs, end := SoundItemsLoop(ts, [], pos, d, close);
      assert [] + Strips(cs) == Strips(cs);
    }
  }

  lemma {:induction false} SoundItemsLoop(ts: seq<Token>, acc: seq<Node>, pos: nat, d: int, close: Token)
    returns (cs: seq<Cst>, end: nat)
    requires Ended(ts) && pos < |ts| && close != TEof && ItemsLoopF(ts, acc, pos, d, close).Items?
    ensures cs != [] && SpellAll(ts, cs, Strips(cs), pos, end) && d + Needs(cs) <= MAX_DEPTH
    ensures acc + Strips(cs) == ItemsLoopF(ts, acc, pos, d, close).nodes
    ensures end < |ts| && ts[end] == close && end + 1 == ItemsLoopF(ts, acc, pos, d, close).next
    decreases |ts| - pos, 9
  {
    var c := SoundOr(ts, pos, d);
    var p := OrF(ts, pos, d).pos;
    if ts[p] == TComma {
      var acc' := acc + [Strip(c)];
      cs, end := SoundItemsLoop(ts, acc', p + 1, d, close);
      JoinCons(ts, c, cs, Strips(cs), pos, p, end);
      assert acc + ([Strip(c)] + Strips(cs)) == acc' + Strips(cs);
      cs := [c] + cs;
    } else {
      JoinLast(ts, c, pos, p);
      cs, end := [c], p;
    }
  }

  // ----- Completeness -----

  /** A token that cannot extend an expression of the given level. */
  predicate Stops(t: Token, level: nat)
  {
    && t != TLParen
    && (level <= 3 ==> t != TPlus && t != TMinus)
    && (level <= 2 ==> !IsCmpToken(t))
    && (level <= 1 ==> t != TAnd)
    && (level == 0 ==> t != TOr)
  }

  /** c stands at pos up to end, something follows it, and it fits the depth left. */
  ghost predicate Fits(ts: seq<Token>, c: Cst, pos: nat, end: nat, d: int)
  {
    && WF(c) && At(ts, pos, Yield(c)) && end == pos + |Yield(c)| && end < |ts|
    && d + Need(c) <= MAX_DEPTH
  }

  /** cs stand at pos up to end, close follows them, and they fit the depth left. */
  ghost predicate FitAll(ts: seq<Token>, cs: seq<Cst>, pos: nat, end: nat, d: int, close: Token)
  {
    && WFs(cs) && At(ts, pos, Yields(cs)) && end == pos + |Yields(cs)| && end < |ts| && ts[end] == close
    && d + Needs(cs) <= MAX_DEPTH
  }

  lemma SplitBinary(ts: seq<Token>, op: BinOp, l: Cst, r: Cst, pos: nat, end: nat, d: int) returns (mid: nat)
    requires Fits(ts, CBin(op, l, r), pos, end, d)
    ensures Fits(ts, l, pos, mid, d) && Level(l) >= LeftLevel(op) && ts[mid] == BinToken(op)
    ensures Fits(ts, r, mid + 1, end, d) && Level(r) > OpLevel(op)
  {
    mid := pos + |Yield(l)|;
    AtSplit(ts, pos, Yield(l) + [BinToken(op)], Yield(r));
    AtSplit(ts, pos, Yield(l), [BinToken(op)]);
    AtOne(ts, mid, BinToken(op));
  }

  lemma SplitUnary(ts: seq<Token>, op: UnOp, x: Cst, pos: nat, end: nat, d: int)
    requires Fits(ts, CUn(op, x), pos, end, d)
    ensures ts[pos] == UnToken(op) && Fits(ts, x, pos + 1, end, d + 1) && Level(x) >= 4
  {
    AtSplit(ts, pos, [UnToken(op)], Yield(x));
    AtOne(ts, pos, UnToken(op));
  }

  lemma SplitBracket(ts: seq<Token>, open: seq<Token>, inner: seq<Token>, close: Token, pos: nat)
    requires At(ts, pos, open + inner + [close])
    ensures At(ts, pos, open) && At(ts, pos + |open|, inner)
    ensures pos + |open| + |inner| < |ts| && ts[pos + |open| + |inner|] == close
  {
    AtSplit(ts, pos, open + inner, [close]);
    AtSplit(ts, pos, open, inner);
    AtOne(ts, pos + |open| + |inner|, close);
  }

  lemma SplitList(ts: seq<Token>, es: seq<Cst>, pos: nat, end: nat, d: int)
    requires Fits(ts, CList(es), pos, end, d)
    ensures ts[pos] == TLBracket && end > pos + 1 && FitAll(ts, es, pos + 1, end - 1, d + 1, TRBracket)
  {
    SplitBracket(ts, [TLBracket], Yields(es), TRBracket, pos);
    AtOne(ts, pos, TLBracket);
  }

  lemma SplitCall(ts: seq<Token>, name: string, es: seq<Cst>, pos: nat, end: nat, d: int)
    requires Fits(ts, CCall(name, es), pos, end, d)
    ensures end > pos + 2 && ts[pos] == TIdent(name) && ts[pos + 1] == TLParen
    ensures FitAll(ts, es, pos + 2, end - 1, d + 1, TRParen)
  {
    SplitBracket(ts, [TIdent(name), TLParen], Yields(es), TRParen, pos);
    assert ts[pos] == ts[pos..pos + 2][0] && ts[pos + 1] == ts[pos..pos + 2][1];
  }

  lemma SplitParen(ts: seq<Token>, e: Cst, pos: nat, end: nat, d: int)
    requires Fits(ts, CParen(e), pos, end, d)
    ensures end > pos + 1 && ts[pos] == TLParen && ts[end - 1] == TRParen && Fits(ts, e, pos + 1, end - 1, d + 2)
  {
    SplitBracket(ts, [TLParen], Yield(e), TRParen, pos);
    AtOne(ts, pos, TLParen);
  }

  lemma SplitCons(ts: seq<Token>, cs: seq<Cst>, pos: nat, end: nat, d: int, close: Token) returns (mid: nat)
    requires FitAll(ts, cs, pos, end, d, close) && |cs| > 1
    ensures Fits(ts, cs[0], pos, mid, d + 1) && ts[mid] == TComma
    ensures FitAll(ts, cs[1..], mid + 1, end, d, close)
  {
    mid := pos + |Yield(cs[0])|;
    AtSplit(ts, pos, Yield(cs[0]) + [TComma], Yields(cs[1..]));
    AtSplit(ts, pos, Yield(cs[0]), [TComma]);
    AtOne(ts, mid, TComma);
  }

  /** First tokens never look like a closing token. */
  lemma {:induction false} FirstToken(c: Cst)
    ensures Yield(c)[0] != TRParen && Yield(c)[0] != TRBracket
    decreases c
  {
    match c
    case CBin(_, l, _) => FirstToken(l);
    case _ =>
  }

  lemma {:induction false} CompleteOr(ts: seq<Token>, c: Cst, pos: nat, end: nat, d: int)
    requires Ended(ts) && Fits(ts, c, pos, end, d + 1) && Stops(ts[end], 0)
    ensures OrF(ts, pos, d) == Done(Strip(c), end)
    decreases c, 9
  {
    CompleteOrChain(ts, c, pos, end, d);
  }

  /** Parsing from pos is the same as resuming the or-loop behind c. */
  lemma {:induction false} CompleteOrChain(ts: seq<Token>, c: Cst, pos: nat, end: nat, d: int)
    requires Ended(ts) && Fits(ts, c, pos, end, d + 1) && Stops(ts[end], 1)
    ensures OrF(ts, pos, d) == OrLoopF(ts, Strip(c), end, d + 1)
    decreases c, 8
  {
    if c.CBin? && c.bop == Or {
      CompleteOrBinary(ts, c.l, c.r, pos, end, d);
    } else {
      CompleteAnd(ts, c, pos, end, d + 1);
      OrStart(ts, pos, d, Strip(c), end);
    }
  }

  lemma {:induction false} CompleteOrBinary(ts: seq<Token>, l: Cst, r: Cst, pos: nat, end: nat, d: int)
    requires Ended(ts) && Fits(ts, CBin(Or, l, r), pos, end, d + 1) && Stops(ts[end], 1)
    ensures OrF(ts, pos, d) == OrLoopF(ts, Binary(Or, Strip(l), Strip(r)), end, d + 1)
    decreases CBin(Or, l, r), 7
  {
    var mid := SplitBinary(ts, Or, l, r, pos, end, d + 1);
    CompleteOrChain(ts, l, pos, mid, d);
    CompleteAnd(ts, r, mid + 1, end, d + 1);
    OrTurn(ts, Strip(l), mid, d + 1, Strip(r), end);
  }

  lemma {:induction false} CompleteAnd(ts: seq<Token>, c: Cst, pos: nat, end: nat, d: int)
    requires Ended(ts) && Fits(ts, c, pos, end, d) && Level(c) >= 1 && Stops(ts[end], 1)
    ensures AndF(ts, pos, d) == Done(Strip(c), end)
    decreases c, 7
  {
    CompleteAndChain(ts, c, pos, end, d);
  }

  lemma {:induction false} CompleteAndChain(ts: seq<Token>, c: Cst, pos: nat, end: nat, d: int)
    requires Ended(ts) && Fits(ts, c, pos, end, d) && Level(c) >= 1 && Stops(ts[end], 2)
    ensures AndF(ts, pos, d) == AndLoopF(ts, Strip(c), end, d)
    decreases c, 6
  {
    if c.CBin? && c.bop == And {
      var mid := SplitBinary(ts, And, c.l, c.r, pos, end, d);
      CompleteAndChain(ts, c.l, pos, mid, d);
      CompleteCmp(ts, c.r, mid + 1, end, d);
      AndTurn(ts, Strip(c.l), mid, d, Strip(c.r), end);
    } else {
      CompleteCmp(ts, c, pos, end, d);
      AndStart(ts, pos, d, Strip(c), end);
    }
  }

  lemma {:induction false} CompleteCmp(ts: seq<Token>, c: Cst, pos: nat, end: nat, d: int)
    requires Ended(ts) && Fits(ts, c, pos, end, d) && Level(c) >= 2 && Stops(ts[end], 2)
    ensures CmpF(ts, pos, d) == Done(Strip(c), end)
    decreases c, 5
  {
    if c.CBin? && OpLevel(c.bop) == 2 {
      var mid := SplitBinary(ts, c.bop, c.l, c.r, pos, end, d);
      CompleteAdd(ts, c.l, pos, mid, d);
      CompleteAdd(ts, c.r, mid + 1, end, d);
      CmpTurn(ts, c.bop, pos, d, Strip(c.l), mid, Strip(c.r), end);
    } else {
      CompleteAdd(ts, c, pos, end, d);
    }
  }

  lemma {:induction false} CompleteAdd(ts: seq<Token>, c: Cst, pos: nat, end: nat, d: int)
    requires Ended(ts) && Fits(ts, c, pos, end, d) && Level(c) >= 3 && Stops(ts[end], 3)
    ensures AddF(ts, pos, d) == Done(Strip(c), end)
    decreases c, 4
  {
    CompleteAddChain(ts, c, pos, end, d);
  }

  lemma {:induction false} CompleteAddChain(ts: seq<Token>, c: Cst, pos: nat, end: nat, d: int)
    requires Ended(ts) && Fits(ts, c, pos, end, d) && Level(c) >= 3 && Stops(ts[end], 4)
    ensures AddF(ts, pos, d) == AddLoopF(ts, Strip(c), end, d)
    decreases c, 3
  {
    if c.CBin? {
      var mid := SplitBinary(ts, c.bop, c.l, c.r, pos, end, d);
      CompleteAddChain(ts, c.l, pos, mid, d);
      CompleteUnary(ts, c.r, mid + 1, end, d);
      AddTurn(ts, c.bop, Strip(c.l), mid, d, Strip(c.r), end);
    } else {
      CompleteUnary(ts, c, pos, end, d);
      AddStart(ts, pos, d, Strip(c), end);
    }
  }

  lemma {:induction false} CompleteUnary(ts: seq<Token>, c: Cst, pos: nat, end: nat, d: int)
    requires Ended(ts) && Fits(ts, c, pos, end, d) && Level(c) >= 4 && Stops(ts[end], 4)
    ensures UnaryF(ts, pos, d) == Done(Strip(c), end)
    decreases c, 2
  {
    if c.CUn? {
      SplitUnary(ts, c.op, c.x, pos, end, d);
      CompleteUnary(ts, c.x, pos + 1, end, d + 1);
    } else {
      CompletePrimary(ts, c, pos, end, d);
    }
  }

  lemma {:induction false} CompletePrimary(ts: seq<Token>, c: Cst, pos: nat, end: nat, d: int)
    requires Ended(ts) && Fits(ts, c, pos, end, d) && Level(c) == 5 && Stops(ts[end], 4)
    ensures PrimaryF(ts, pos, d) == Done(Strip(c), end)
    ensures ts[pos] != TNot && ts[pos] != TMinus
    decreases c, 1
  {
    match c
    case CList(es) => CompleteList(ts, es, pos, end, d);
    case CCall(name, es) => CompleteCall(ts, name, es, pos, end, d);
    case CParen(e) => CompleteParen(ts, e, pos, end, d);
    case _ => CompleteLeaf(ts, c, pos, end, d);
  }

  lemma {:induction false} CompleteList(ts: seq<Token>, es: seq<Cst>, pos: nat, end: nat, d: int)
    requires Ended(ts) && Fits(ts, CList(es), pos, end, d)
    ensures PrimaryF(ts, pos, d) == Done(ListLit(Strips(es)), end) && ts[pos] == TLBracket
    decreases CList(es), 0
  {
    SplitList(ts, es, pos, end, d);
    CompleteItems(ts, es, pos + 1, end - 1, d + 1, TRBracket);
    ListTurn(ts, pos, d, Strips(es), end);
  }

  lemma {:induction false} CompleteCall(ts: seq<Token>, name: string, es: seq<Cst>, pos: nat, end: nat, d: int)
    requires Ended(ts) && Fits(ts, CCall(name, es), pos, end, d)
    ensures PrimaryF(ts, pos, d) == Done(Call(name, Strips(es)), end) && ts[pos].TIdent?
    decreases CCall(name, es), 0
  {
    SplitCall(ts, name, es, pos, end, d);
    CompleteItems(ts, es, pos + 2, end - 1, d + 1, TRParen);
    CallTurn(ts, pos, d, Strips(es), end);
  }

  lemma {:induction false} CompleteParen(ts: seq<Token>, e: Cst, pos: nat, end: nat, d: int)
    requires Ended(ts) && Fits(ts, CParen(e), pos, end, d)
    ensures PrimaryF(ts, pos, d) == Done(Strip(e), end) && ts[pos] == TLParen
    decreases CParen(e), 0
  {
    SplitParen(ts, e, pos, end, d);
    CompleteOr(ts, e, pos + 1, end - 1, d + 1);
    ParenTurn(ts, pos, d, Strip(e), end - 1);
  }

  lemma CompleteLeaf(ts: seq<Token>, c: Cst, pos: nat, end: nat, d: int)
    requires Ended(ts) && Fits(ts, c, pos, end, d) && Stops(ts[end], 4)
    requires c.CNum? || c.CStr? || c.CBool? || c.CIdent?
    ensures PrimaryF(ts, pos, d) == Done(Strip(c), end)
    ensures ts[pos] != TNot && ts[pos] != TMinus
  {
    AtOne(ts, pos, Yield(c)[0]);
    LeafTurn(ts, pos, d);
  }

  lemma {:induction false} CompleteItems(ts: seq<Token>, cs: seq<Cst>, pos: nat, end: nat, d: int, close: Token)
    requires Ended(ts) && FitAll(ts, cs, pos, end, d, close) && (close == TRParen || close == TRBracket)
    ensures ItemsF(ts, pos, d, close) == Items(Strips(cs), end + 1)
    decreases cs, 2
  {
    if cs != [] {
      FirstToken(cs[0]);
      assert ts[pos] == ts[pos..end][0] == Yield(cs[0])[0];
      CompleteItemsLoop(ts, [], cs, pos, end, d, close);
      assert [] + Strips(cs) == Strips(cs);
    }
  }

  lemma {:induction false} CompleteItemsLoop(ts: seq<Token>, acc: seq<Node>, cs: seq<Cst>, pos: nat, end: nat, d: int,
      close: Token)
    requires Ended(ts) && FitAll(ts, cs, pos, end, d, close) && (close == TRParen || close == TRBracket)
    requires cs != []
    ensures ItemsLoopF(ts, acc, pos, d, close) == Items(acc + Strips(cs), end + 1)
    decreases cs, 0
  {
    if |cs| == 1 {
      CompleteLastItem(ts, acc, cs, pos, end, d, close);
    } else {
      var x := Strip(cs[0]);
      var mid := SplitCons(ts, cs, pos, end, d, close);
      CompleteOr(ts, cs[0], pos, mid, d);
      ItemsTurn(ts, acc, pos, d, close, x, mid);
      CompleteItemsLoop(ts, acc + [x], cs[1..], mid + 1, end, d, close);
      OneMoreNode(acc, x, Strips(cs[1..]), Strips(cs));
    }
  }

  lemma OneMoreNode(acc: seq<Node>, x: Node, rest: seq<Node>, all: seq<Node>)
    requires all == [x] + rest
    ensures acc + all == acc + [x] + rest
  {}

  lemma {:induction false} CompleteLastItem(ts: seq<Token>, acc: seq<Node>, cs: seq<Cst>, pos: nat, end: nat, d: int,
      close: Token)
    requires Ended(ts) && FitAll(ts, cs, pos, end, d, close) && (close == TRParen || close == TRBracket)
    requires |cs| == 1
    ensures ItemsLoopF(ts, acc, pos, d, close) == Items(acc + Strips(cs), end + 1)
    decreases cs, 0, 0
  {
    CompleteOr(ts, cs[0], pos, end, d);
    assert Strips(cs) == [Strip(cs[0])];
  }

  // ----- The main results -----

  /** c spells the whole stream ts within the depth budget. */
  ghost predicate Derives(c: Cst, ts: seq<Token>)
  {
    WF(c) && ts == Yield(c) + [TEof] && 1 + Need(c) <= MAX_DEPTH
  }

  /** The parser is exactly the grammar: it returns n if and only if some grammatical tree
      within the depth budget spells the stream and means n. */
  lemma ParserIsTheGrammar(ts: seq<Token>, n: Node)
    requires ValidToks(ts)
    ensures ParseTokensF(ts) == Ok(n) <==> exists c :: Derives(c, ts) && Strip(c) == n
  {
    if ParseTokensF(ts) == Ok(n) {
      var c := SoundOr(ts, 0, 0);
      assert ts == Yield(c) + [TEof];
      assert Derives(c, ts) && Strip(c) == n;
    }
    forall c | Derives(c, ts) && Strip(c) == n
      ensures ParseTokensF(ts) == Ok(n)
    {
      CompleteOr(ts, c, 0, |Yield(c)|, 0);
    }
  }

  lemma YieldIsValid(c: Cst)
    ensures ValidToks(Yield(c) + [TEof])
  {
    YieldHasNoEof(c);
    var ts := Yield(c) + [TEof];
    forall i | 0 <= i < |ts| - 1
      ensures ts[i] != TEof
    {
      assert ts[i] == Yield(c)[i];
    }
  }

  /** The grammar is unambiguous: two grammatical spellings with the same tokens mean the
      same tree, whatever their depth. */
  lemma Unambiguous(c1: Cst, c2: Cst)
    requires WF(c1) && WF(c2) && Yield(c1) == Yield(c2)
    ensures Strip(c1) == Strip(c2)
  {
    var ts := Yield(c1) + [TEof];
    YieldIsValid(c1);
    var d := MAX_DEPTH - 1 - Max(Need(c1), Need(c2));
    CompleteOr(ts, c1, 0, |ts| - 1, d);
    CompleteOr(ts, c2, 0, |ts| - 1, d);
  }

  /** The result never has more nodes than the stream has tokens before its end marker. */
  lemma NoMoreNodesThanTokens(ts: seq<Token>)
    requires ValidToks(ts) && ParseTokensF(ts).Ok?
    ensures NodeCount(ParseTokensF(ts).node) <= |ts| - 1
  {
    var c := SoundOr(ts, 0, 0);
    NodesWithinTokens(c);
  }
}
