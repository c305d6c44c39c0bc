/** How deep a token stream nests: one pass over the tokens with a stack of open groups and
    prefix signs, building no tree.  It tells, for every stream, whether the parser refuses it
    for its depth, for a token, or not at all. */
module PolicyNesting {
  import opened Options
  import opened PolicyAst
  import opened PolicyParser

  /** What an open group is: the whole expression, a parenthesis, a list, or arguments. */
  datatype Kind = Whole | Paren | Elems | Args

  /** An open group: the level of its expressions, the prefix signs before the operand now
      read, and whether a comparison was seen since the last && or ||. */
  datatype Group = Group(kind: Kind, level: int, signs: nat, compared: bool)

  /** The innermost group comes first. */
  type Groups = gs: seq<Group> | gs != [] witness [Group(Whole, 1, 0, false)]

  datatype Walked = Accepted | TooNested | Rejected(at: nat)

  predicate IsSign(t: Token) { t == TNot || t == TMinus }

  function Closer(kind: Kind): Token
    requires kind != Whole
  {
    if kind == Elems then TRBracket else TRParen
  }

  /** The group that starts here, if one does. */
  predicate OpensAt(ts: seq<Token>, pos: nat)
    requires Ended(ts) && pos < |ts|
  {
    ts[pos] == TLParen || ts[pos] == TLBracket || (ts[pos].TIdent? && ts[pos + 1] == TLParen)
  }

  function KindAt(ts: seq<Token>, pos: nat): Kind
    requires Ended(ts) && pos < |ts| && OpensAt(ts, pos)
  {
    if ts[pos] == TLParen then Paren else if ts[pos] == TLBracket then Elems else Args
  }

  /** The position behind what opens the group. */
  function Inside(ts: seq<Token>, pos: nat): (p: nat)
    requires Ended(ts) && pos < |ts| && OpensAt(ts, pos)
    ensures pos < p < |ts|
  {
    if ts[pos].TIdent? then pos + 2 else pos + 1
  }

  predicate IsLeaf(ts: seq<Token>, pos: nat)
    requires Ended(ts) && pos < |ts|
  {
    ts[pos].TNumber? || ts[pos].TString? || ts[pos] == TTrue || ts[pos] == TFalse || ts[pos].TIdent?
  }

  function Signed(gs: Groups): Groups { [gs[0].(signs := gs[0].signs + 1)] + gs[1..] }

  function Settled(gs: Groups): Groups { [gs[0].(signs := 0)] + gs[1..] }

  function Comparing(gs: Groups, compared: bool): Groups { [gs[0].(compared := compared)] + gs[1..] }

  /** The group that opens at pos, two levels down. */
  function Entered(ts: seq<Token>, pos: nat, gs: Groups): Groups
    requires Ended(ts) && pos < |ts| && OpensAt(ts, pos)
  {
    [Group(KindAt(ts, pos), gs[0].level + gs[0].signs + 2, 0, false)] + gs
  }

  /** The groups behind an infix operator. */
  function BehindInfix(t: Token, gs: Groups): Option<Groups>
  {
    if t == TPlus || t == TMinus then Some(gs)
    else if IsCmpToken(t) && !gs[0].compared then Some(Comparing(gs, true))
    else if t == TAnd || t == TOr then Some(Comparing(gs, false))
    else None
  }

  /** An operand is due at pos. */
  function Operand(ts: seq<Token>, pos: nat, gs: Groups): Walked
    requires Ended(ts) && pos < |ts|
    decreases |ts| - pos, 1
  {
    if gs[0].level + gs[0].signs + 1 > MAX_DEPTH then TooNested
    else if IsSign(ts[pos]) then Operand(ts, pos + 1, Signed(gs))
    else if OpensAt(ts, pos) then
      var kind, p := KindAt(ts, pos), Inside(ts, pos);
      if kind != Paren && ts[p] == Closer(kind) then Operator(ts, p + 1, Settled(gs))
      else if gs[0].level + gs[0].signs + 2 > MAX_DEPTH then TooNested
      else Operand(ts, p, Entered(ts, pos, gs))
    else if IsLeaf(ts, pos) then Operator(ts, pos + 1, Settled(gs))
    else Rejected(pos)
  }

  /** An operand ended at pos. */
  function Operator(ts: seq<Token>, pos: nat, gs: Groups): Walked
    requires Ended(ts) && pos < |ts|
    decreases |ts| - pos, 1
  {
    var next := BehindInfix(ts[pos], gs);
    if next.Some? then Operand(ts, pos + 1, next.value) else Closing(ts, pos, gs)
  }

  /** The expression of the innermost group ended at pos. */
  function Closing(ts: seq<Token>, pos: nat, gs: Groups): Walked
    requires Ended(ts) && pos < |ts|
    decreases |ts| - pos, 0
  {
    var t, kind := ts[pos], gs[0].kind;
    if kind == Whole then (if t == TEof then Accepted else Rejected(pos))
    else if t == TComma && kind != Paren then Operand(ts, pos + 1, Comparing(gs, false))
    else if t == Closer(kind) && |gs| > 1 then Operator(ts, pos + 1, Settled(gs[1..]))
    else Rejected(pos)
  }

  const START: Groups := [Group(Whole, 1, 0, false)]

  function Walk(ts: seq<Token>): Walked
    requires Ended(ts)
  {
    Operand(ts, 0, START)
  }

  // ----- The walk is the parser without its trees -----

  function Lift(e: ParseError): Walked
  {
    match e
    case TooDeep => TooNested
    case BadToken(at) => Rejected(at)
    case _ => Rejected(0)
  }

  /** What the walk says once an operand that was parsed with this outcome is behind it. */
  function After(ts: seq<Token>, r: Outcome, gs: Groups): Walked
    requires Ended(ts) && (r.Done? ==> r.pos < |ts|)
  {
    if r.Done? then Operator(ts, r.pos, gs) else Lift(r.error)
  }

  /** The same for the whole expression of a group. */
  function AfterAll(ts: seq<Token>, r: Outcome, gs: Groups): Walked
    requires Ended(ts) && (r.Done? ==> r.pos < |ts|)
  {
    if r.Done? then Closing(ts, r.pos, gs) else Lift(r.error)
  }

  /** What the walk says once the items of a group were read with this outcome. */
  function AfterItems(ts: seq<Token>, r: ItemsOutcome, gs: Groups): Walked
    requires Ended(ts) && (r.Items? ==> r.next < |ts|)
  {
    if r.Items? then Operator(ts, r.next, Settled(gs)) else Lift(r.err)
  }

  /** The same for what stands in a parenthesis. */
  function AfterParen(ts: seq<Token>, r: Outcome, gs: Groups): Walked
    requires Ended(ts) && (r.Done? ==> r.pos < |ts|)
  {
    if r.Fail? then Lift(r.error)
    else if ts[r.pos] == TRParen then Operator(ts, r.pos + 1, Settled(gs))
    else Rejected(r.pos)
  }

  predicate NoSum(t: Token) { t != TPlus && t != TMinus }

  lemma {:induction false} UnaryWalk(ts: seq<Token>, pos: nat, gs: Groups)
    requires Ended(ts) && pos < |ts|
    ensures Operand(ts, pos, gs) == After(ts, UnaryF(ts, pos, gs[0].level + gs[0].signs), Settled(gs))
    decreases |ts| - pos, 3
  {
    if IsSign(ts[pos]) {
      if gs[0].level + gs[0].signs + 1 <= MAX_DEPTH {
        UnaryWalk(ts, pos + 1, Signed(gs));
        assert Settled(Signed(gs)) == Settled(gs);
      }
    } else {
      PrimaryWalk(ts, pos, gs);
    }
  }

  lemma {:induction false} PrimaryWalk(ts: seq<Token>, pos: nat, gs: Groups)
    requires Ended(ts) && pos < |ts| && !IsSign(ts[pos])
    ensures Operand(ts, pos, gs) == After(ts, PrimaryF(ts, pos, gs[0].level + gs[0].signs), Settled(gs))
    decreases |ts| - pos, 2
  {
    if gs[0].level + gs[0].signs + 1 > MAX_DEPTH || !OpensAt(ts, pos) {
      LeafWalk(ts, pos, gs);
    } else if KindAt(ts, pos) == Paren {
      OpenedParenWalk(ts, pos, Entered(ts, pos, gs), gs);
    } else {
      ListWalk(ts, pos, gs);
    }
  }

  lemma LeafWalk(ts: seq<Token>, pos: nat, gs: Groups)
    requires Ended(ts) && pos < |ts| && !IsSign(ts[pos])
    requires gs[0].level + gs[0].signs + 1 > MAX_DEPTH || !OpensAt(ts, pos)
    ensures Operand(ts, pos, gs) == After(ts, PrimaryF(ts, pos, gs[0].level + gs[0].signs), Settled(gs))
  {}

  lemma EmptyTurn(ts: seq<Token>, pos: nat, gs: Groups)
    requires Ended(ts) && pos < |ts| && OpensAt(ts, pos)
    requires KindAt(ts, pos) != Paren && ts[Inside(ts, pos)] == Closer(KindAt(ts, pos))
    requires gs[0].level + gs[0].signs + 1 <= MAX_DEPTH
    ensures Operand(ts, pos, gs) == Operator(ts, Inside(ts, pos) + 1, Settled(gs))
  {}

  lemma GroupTurn(ts: seq<Token>, pos: nat, gs: Groups)
    requires Ended(ts) && pos < |ts| && OpensAt(ts, pos)
    requires KindAt(ts, pos) != Paren ==> ts[Inside(ts, pos)] != Closer(KindAt(ts, pos))
    requires gs[0].level + gs[0].signs + 2 <= MAX_DEPTH
    ensures Operand(ts, pos, gs) == Operand(ts, Inside(ts, pos), Entered(ts, pos, gs))
  {}

  lemma DeepTurn(ts: seq<Token>, pos: nat, gs: Groups)
    requires Ended(ts) && pos < |ts| && OpensAt(ts, pos)
    requires KindAt(ts, pos) != Paren ==> ts[Inside(ts, pos)] != Closer(KindAt(ts, pos))
    requires gs[0].level + gs[0].signs + 2 > MAX_DEPTH
    ensures Operand(ts, pos, gs) == TooNested
  {}

  lemma InfixTurn(ts: seq<Token>, pos: nat, gs: Groups)
    requires Ended(ts) && pos < |ts|
    ensures var next := BehindInfix(ts[pos], gs);
            if next.Some? then pos + 1 < |ts| && Operator(ts, pos, gs) == Operand(ts, pos + 1, next.value)
            else Operator(ts, pos, gs) == Closing(ts, pos, gs)
  {}

  /** A parenthesis that opens at pos. */
  lemma {:induction false} OpenedParenWalk(ts: seq<Token>, pos: nat, inner: Groups, gs: Groups)
    requires Ended(ts) && pos < |ts| && ts[pos] == TLParen && inner == Entered(ts, pos, gs)
    requires gs[0].level + gs[0].signs + 1 <= MAX_DEPTH
    ensures Operand(ts, pos, gs) == After(ts, PrimaryF(ts, pos, gs[0].level + gs[0].signs), Settled(gs))
    decreases |ts| - pos, 1
  {
    var d := gs[0].level + gs[0].signs;
    ParenWalk(ts, pos + 1, inner, gs);
    if d + 2 <= MAX_DEPTH {
      GroupTurn(ts, pos, gs);
    } else {
      DeepTurn(ts, pos, gs);
    }
    OpensParen(ts, pos, d, gs);
  }

  lemma OpensParen(ts: seq<Token>, pos: nat, d: int, gs: Groups)
    requires Ended(ts) && pos < |ts| && ts[pos] == TLParen && d + 1 <= MAX_DEPTH
    ensures AfterParen(ts, OrF(ts, pos + 1, d + 1), gs) == After(ts, PrimaryF(ts, pos, d), Settled(gs))
  {}

  /** A list or a call, whichever opens at pos. */
  lemma {:induction false} ListWalk(ts: seq<Token>, pos: nat, gs: Groups)
    requires Ended(ts) && pos < |ts| && OpensAt(ts, pos) && KindAt(ts, pos) != Paren
    requires gs[0].level + gs[0].signs + 1 <= MAX_DEPTH
    ensures Operand(ts, pos, gs) == After(ts, PrimaryF(ts, pos, gs[0].level + gs[0].signs), Settled(gs))
    decreases |ts| - pos, 1
  {
    var d := gs[0].level + gs[0].signs;
    OpenedItemsWalk(ts, pos, d, Entered(ts, pos, gs), gs);
    OpensItems(ts, pos, d, gs);
  }

  /** The items behind the opening at pos. */
  lemma {:induction false} OpenedItemsWalk(ts: seq<Token>, pos: nat, d: int, inner: Groups, gs: Groups)
    requires Ended(ts) && pos < |ts| && OpensAt(ts, pos) && KindAt(ts, pos) != Paren
    requires d == gs[0].level + gs[0].signs && d + 1 <= MAX_DEPTH && inner == Entered(ts, pos, gs)
    ensures Operand(ts, pos, gs) ==
            AfterItems(ts, ItemsF(ts, Inside(ts, pos), d + 1, Closer(KindAt(ts, pos))), gs)
    decreases |ts| - pos, 0
  {
    var p, close := Inside(ts, pos), Closer(KindAt(ts, pos));
    if ts[p] == close {
      EmptyTurn(ts, pos, gs);
      NoItems(ts, p, d + 1, close);
    } else {
      SomeItems(ts, p, d + 1, close);
      assert inner[1..] == gs;
      ItemsLoopWalk(ts, [], p, inner, gs);
      if d + 2 <= MAX_DEPTH {
        GroupTurn(ts, pos, gs);
      } else {
        DeepTurn(ts, pos, gs);
      }
    }
  }

  lemma NoItems(ts: seq<Token>, pos: nat, d: int, close: Token)
    requires Ended(ts) && pos < |ts| && close != TEof && ts[pos] == close
    ensures ItemsF(ts, pos, d, close) == Items([], pos + 1)
  {}

  lemma SomeItems(ts: seq<Token>, pos: nat, d: int, close: Token)
    requires Ended(ts) && pos < |ts| && close != TEof && ts[pos] != close
    ensures ItemsF(ts, pos, d, close) == ItemsLoopF(ts, [], pos, d, close)
  {}

  lemma OpensItems(ts: seq<Token>, pos: nat, d: int, gs: Groups)
    requires Ended(ts) && pos < |ts| && OpensAt(ts, pos) && KindAt(ts, pos) != Paren && d + 1 <= MAX_DEPTH
    ensures AfterItems(ts, ItemsF(ts, Inside(ts, pos), d + 1, Closer(KindAt(ts, pos))), gs) ==
            After(ts, PrimaryF(ts, pos, d), Settled(gs))
  {}

  /** A parenthesis, from behind its opening. */
  lemma {:induction false} ParenWalk(ts: seq<Token>, pos: nat, inner: Groups, gs: Groups)
    requires Ended(ts) && pos < |ts| && inner == [Group(Paren, gs[0].level + gs[0].signs + 2, 0, false)] + gs
    ensures (if inner[0].level > MAX_DEPTH then TooNested else Operand(ts, pos, inner)) ==
            AfterParen(ts, OrF(ts, pos, inner[0].level - 1), gs)
    decreases |ts| - pos, 8
  {
    if inner[0].level <= MAX_DEPTH {
      OrWalk(ts, pos, inner);
      assert inner[1..] == gs;
    }
  }

  /** A list or the arguments of a call, from an item on. */
  lemma {:induction false} ItemsLoopWalk(ts: seq<Token>, acc: seq<Node>, pos: nat, inner: Groups, gs: Groups)
    requires Ended(ts) && pos < |ts|
    requires inner[0].kind == Elems || inner[0].kind == Args
    requires inner[0] == Group(inner[0].kind, gs[0].level + gs[0].signs + 2, 0, false) && inner[1..] == gs
    ensures (if inner[0].level > MAX_DEPTH then TooNested else Operand(ts, pos, inner)) ==
            AfterItems(ts, ItemsLoopF(ts, acc, pos, inner[0].level - 1, Closer(inner[0].kind)), gs)
    decreases |ts| - pos, 9
  {
    var d, close := inner[0].level - 1, Closer(inner[0].kind);
    if inner[0].level <= MAX_DEPTH {
      var r := OrF(ts, pos, d);
      OrWalk(ts, pos, inner);
      if r.Fail? {
        ItemsStop(ts, acc, pos, d, close);
      } else if ts[r.pos] == TComma {
        ItemWalk(ts, acc, pos, inner, gs, r.node, r.pos);
      } else {
        LastItemWalk(ts, acc, pos, inner, gs, r.node, r.pos);
      }
    }
  }

  /** One item that was read, and the next one behind its comma. */
  lemma {:induction false} ItemWalk(
    ts: seq<Token>, acc: seq<Node>, pos: nat, inner: Groups, gs: Groups, x: Node, p: nat)
    requires Ended(ts) && pos < |ts|
    requires inner[0].kind == Elems || inner[0].kind == Args
    requires inner[0] == Group(inner[0].kind, gs[0].level + gs[0].signs + 2, 0, false) && inner[1..] == gs
    requires inner[0].level <= MAX_DEPTH && OrF(ts, pos, inner[0].level - 1) == Done(x, p) && ts[p] == TComma
    ensures Closing(ts, p, inner) ==
            AfterItems(ts, ItemsLoopF(ts, acc, pos, inner[0].level - 1, Closer(inner[0].kind)), gs)
    decreases |ts| - pos, 8
  {
    var d, close := inner[0].level - 1, Closer(inner[0].kind);
    ItemsLoopWalk(ts, acc + [x], p + 1, inner, gs);
    ItemsTurn(ts, acc, pos, d, close, x, p);
    ClosingItems(ts, p, inner, gs);
  }

  /** The last item that was read, and what closes the group. */
  lemma LastItemWalk(ts: seq<Token>, acc: seq<Node>, pos: nat, inner: Groups, gs: Groups, x: Node, p: nat)
    requires Ended(ts) && pos < |ts|
    requires inner[0].kind == Elems || inner[0].kind == Args
    requires inner[0] == Group(inner[0].kind, gs[0].level + gs[0].signs + 2, 0, false) && inner[1..] == gs
    requires inner[0].level <= MAX_DEPTH && OrF(ts, pos, inner[0].level - 1) == Done(x, p) && ts[p] != TComma
    ensures Closing(ts, p, inner) ==
            AfterItems(ts, ItemsLoopF(ts, acc, pos, inner[0].level - 1, Closer(inner[0].kind)), gs)
  {
    GroupEnds(ts, acc + [x], p, inner, gs);
    ItemsLast(ts, acc, pos, inner[0].level - 1, Closer(inner[0].kind), x, p);
  }

  lemma GroupEnds(ts: seq<Token>, nodes: seq<Node>, p: nat, inner: Groups, gs: Groups)
    requires Ended(ts) && p < |ts| && (inner[0].kind == Elems || inner[0].kind == Args)
    requires inner[1..] == gs && !inner[0].compared && ts[p] != TComma
    ensures Closing(ts, p, inner) ==
            AfterItems(ts, if ts[p] == Closer(inner[0].kind) then Items(nodes, p + 1) else ItemsFail(BadToken(p)), gs)
  {
    ClosingItems(ts, p, inner, gs);
  }

  lemma ClosingItems(ts: seq<Token>, pos: nat, inner: Groups, gs: Groups)
    requires Ended(ts) && pos < |ts| && (inner[0].kind == Elems || inner[0].kind == Args)
    requires inner[1..] == gs && !inner[0].compared
    ensures Closing(ts, pos, inner) ==
            if ts[pos] == TComma then Operand(ts, pos + 1, inner)
            else if ts[pos] == Closer(inner[0].kind) then Operator(ts, pos + 1, Settled(gs))
            else Rejected(pos)
  {
    assert Comparing(inner, false) == inner;
  }

  lemma {:induction false} OrWalk(ts: seq<Token>, pos: nat, gs: Groups)
    requires Ended(ts) && pos < |ts| && gs[0].signs == 0 && !gs[0].compared && gs[0].level <= MAX_DEPTH
    ensures Operand(ts, pos, gs) == AfterAll(ts, OrF(ts, pos, gs[0].level - 1), gs)
    decreases |ts| - pos, 7
  {
    AndWalk(ts, pos, gs);
    var r := AndF(ts, pos, gs[0].level);
    if r.Done? {
      OrLoopWalk(ts, r.node, r.pos, gs);
    }
  }

  lemma {:induction false} OrLoopWalk(ts: seq<Token>, left: Node, pos: nat, gs: Groups)
    requires Ended(ts) && pos < |ts| && gs[0].signs == 0 && !gs[0].compared && NoSum(ts[pos]) && ts[pos] != TAnd
    ensures Operator(ts, pos, Comparing(gs, true)) == AfterAll(ts, OrLoopF(ts, left, pos, gs[0].level), gs)
    decreases |ts| - pos, 7
  {
    assert Comparing(Comparing(gs, true), false) == gs;
    if ts[pos] == TOr {
      AndWalk(ts, pos + 1, gs);
      var r := AndF(ts, pos + 1, gs[0].level);
      if r.Done? {
        OrLoopWalk(ts, Binary(Or, left, r.node), r.pos, gs);
      }
    } else {
      ClosingForgets(ts, pos, gs);
    }
  }

  lemma ClosingForgets(ts: seq<Token>, pos: nat, gs: Groups)
    requires Ended(ts) && pos < |ts| && !gs[0].compared
    ensures Closing(ts, pos, Comparing(gs, true)) == Closing(ts, pos, gs)
  {
    assert Comparing(Comparing(gs, true), false) == gs == Comparing(gs, false);
    assert Comparing(gs, true)[1..] == gs[1..];
  }

  lemma {:induction false} AndWalk(ts: seq<Token>, pos: nat, gs: Groups)
    requires Ended(ts) && pos < |ts| && gs[0].signs == 0 && !gs[0].compared
    ensures var r := AndF(ts, pos, gs[0].level);
            && Operand(ts, pos, gs) == After(ts, r, Comparing(gs, true))
            && (r.Done? ==> NoSum(ts[r.pos]) && ts[r.pos] != TAnd)
    decreases |ts| - pos, 6
  {
    CmpWalk(ts, pos, gs);
    var r := CmpF(ts, pos, gs[0].level);
    if r.Done? {
      AndLoopWalk(ts, r.node, r.pos, gs);
    }
  }

  lemma {:induction false} AndLoopWalk(ts: seq<Token>, left: Node, pos: nat, gs: Groups)
    requires Ended(ts) && pos < |ts| && gs[0].signs == 0 && !gs[0].compared && NoSum(ts[pos])
    ensures var r := AndLoopF(ts, left, pos, gs[0].level);
            && Operator(ts, pos, Comparing(gs, true)) == After(ts, r, Comparing(gs, true))
            && (r.Done? ==> NoSum(ts[r.pos]) && ts[r.pos] != TAnd)
    decreases |ts| - pos, 6
  {
    if ts[pos] == TAnd {
      assert Comparing(Comparing(gs, true), false) == gs;
      CmpWalk(ts, pos + 1, gs);
      var r := CmpF(ts, pos + 1, gs[0].level);
      if r.Done? {
        AndLoopWalk(ts, Binary(And, left, r.node), r.pos, gs);
      }
    }
  }

  lemma {:induction false} CmpWalk(ts: seq<Token>, pos: nat, gs: Groups)
    requires Ended(ts) && pos < |ts| && gs[0].signs == 0 && !gs[0].compared
    ensures var r := CmpF(ts, pos, gs[0].level);
            && Operand(ts, pos, gs) == After(ts, r, Comparing(gs, true))
            && (r.Done? ==> NoSum(ts[r.pos]))
    decreases |ts| - pos, 5
  {
    AddWalk(ts, pos, gs);
    var r := AddF(ts, pos, gs[0].level);
    if r.Done? {
      if IsCmpToken(ts[r.pos]) {
        InfixTurn(ts, r.pos, gs);
        AddWalk(ts, r.pos + 1, Comparing(gs, true));
        CmpTurn(ts, pos, gs[0].level, r.node, r.pos);
      } else {
        ComparedOrNot(ts, r.pos, gs);
        NoCmpTurn(ts, pos, gs[0].level, r.node, r.pos);
      }
    }
  }

  lemma NoCmpTurn(ts: seq<Token>, pos: nat, d: int, x: Node, p: nat)
    requires Ended(ts) && pos < |ts| && AddF(ts, pos, d) == Done(x, p) && !IsCmpToken(ts[p])
    ensures CmpF(ts, pos, d) == Done(x, p)
  {}

  /** A comparison ends where its right side ends. */
  lemma CmpTurn(ts: seq<Token>, pos: nat, d: int, x: Node, p: nat)
    requires Ended(ts) && pos < |ts| && AddF(ts, pos, d) == Done(x, p) && IsCmpToken(ts[p])
    ensures var r, right := CmpF(ts, pos, d), AddF(ts, p + 1, d);
            if right.Fail? then r == right else r.Done? && r.pos == right.pos
  {}

  /** Where no comparison follows, it makes no difference whether there was one. */
  lemma ComparedOrNot(ts: seq<Token>, pos: nat, gs: Groups)
    requires Ended(ts) && pos < |ts| && !gs[0].compared && NoSum(ts[pos]) && !IsCmpToken(ts[pos])
    ensures Operator(ts, pos, gs) == Operator(ts, pos, Comparing(gs, true))
  {
    if ts[pos] == TAnd || ts[pos] == TOr {
      assert Comparing(Comparing(gs, true), false) == Comparing(gs, false);
    } else {
      ClosingForgets(ts, pos, gs);
    }
  }

  lemma {:induction false} AddWalk(ts: seq<Token>, pos: nat, gs: Groups)
    requires Ended(ts) && pos < |ts| && gs[0].signs == 0
    ensures var r := AddF(ts, pos, gs[0].level);
            && Operand(ts, pos, gs) == After(ts, r, gs)
            && (r.Done? ==> NoSum(ts[r.pos]))
    decreases |ts| - pos, 4
  {
    UnaryWalk(ts, pos, gs);
    assert Settled(gs) == gs;
    var r := UnaryF(ts, pos, gs[0].level);
    if r.Done? {
      AddLoopWalk(ts, r.node, r.pos, gs);
    }
  }

  lemma {:induction false} AddLoopWalk(ts: seq<Token>, left: Node, pos: nat, gs: Groups)
    requires Ended(ts) && pos < |ts| && gs[0].signs == 0
    ensures var r := AddLoopF(ts, left, pos, gs[0].level);
            && Operator(ts, pos, gs) == After(ts, r, gs)
            && (r.Done? ==> NoSum(ts[r.pos]))
    decreases |ts| - pos, 4
  {
    if !NoSum(ts[pos]) {
      UnaryWalk(ts, pos + 1, gs);
      assert Settled(gs) == gs;
      var r := UnaryF(ts, pos + 1, gs[0].level);
      if r.Done? {
        AddLoopWalk(ts, Binary(if ts[pos] == TPlus then Plus else Minus, left, r.node), r.pos, gs);
      }
    }
  }

  /** For every token stream the walk says what the parser does: it accepts, refuses the depth,
      or refuses the same token. */
  lemma WalkIsTheParser(ts: seq<Token>)
    requires Ended(ts)
    ensures Walk(ts) == (
      var r := ParseTokensF(ts);
      if r.Ok? then Accepted else Lift(r.error))
  {
    OrWalk(ts, 0, START);
  }

  /** When a stream is refused for its depth, from its tokens alone. */
  lemma TooDeepIff(ts: seq<Token>)
    requires Ended(ts)
    ensures ParseTokensF(ts) == Err(TooDeep) <==> Walk(ts) == TooNested
  {
    WalkIsTheParser(ts);
  }

  // ----- Nesting that is never refused -----

  /** What a token adds to the nesting: two levels a group, one a sign. */
  function Weight(t: Token): int
  {
    if t == TLParen || t == TLBracket then 2
    else if t == TRParen || t == TRBracket then -2
    else if IsSign(t) then 1
    else 0
  }

  /** The nesting at pos, every minus taken for a prefix sign. */
  function Nesting(ts: seq<Token>, pos: nat): int
    requires pos <= |ts|
  {
    if pos == 0 then 0 else Nesting(ts, pos - 1) + Weight(ts[pos - 1])
  }

  ghost predicate Shallow(ts: seq<Token>)
  {
    forall pos :: 0 <= pos < |ts| ==> Nesting(ts, pos) + 2 <= MAX_DEPTH
  }

  /** Each group stands two levels and the signs of the next one above it. */
  predicate Chained(gs: Groups)
  {
    |gs| == 1 || (gs[0].level == gs[1].level + gs[1].signs + 2 && Chained(gs[1..]))
  }

  /** The groups stand in a chain, the innermost within the nesting. */
  predicate Within(gs: Groups, nesting: int)
  {
    gs[0].level + gs[0].signs <= nesting + 1 && Chained(gs)
  }

  /** What stands once the innermost group is closed. */
  lemma OuterWithin(gs: Groups, nesting: int)
    requires Within(gs, nesting) && |gs| > 1
    ensures Within(Settled(gs[1..]), nesting - 2)
  {
    SameLevelWithin(gs[1..], Settled(gs[1..]));
  }

  /** A chain stays one when only signs are dropped or comparisons noted on top. */
  lemma SameLevelWithin(gs: Groups, now: Groups)
    requires Chained(gs) && |now| == |gs| && now[0].level == gs[0].level && now[1..] == gs[1..]
    ensures Chained(now)
  {
    assert |gs| > 1 ==> now[1] == gs[1..][0];
  }

  lemma SettledWithin(gs: Groups, nesting: int)
    requires Within(gs, nesting)
    ensures Within(Settled(gs), nesting) && Within(Comparing(gs, true), nesting) && Within(Comparing(gs, false), nesting)
    ensures Within(Signed(gs), nesting + 1)
  {
    SameLevelWithin(gs, Settled(gs));
    SameLevelWithin(gs, Comparing(gs, true));
    SameLevelWithin(gs, Comparing(gs, false));
    SameLevelWithin(gs, Signed(gs));
  }

  lemma {:induction false} OperandWithin(ts: seq<Token>, pos: nat, gs: Groups)
    requires Ended(ts) && pos < |ts| && Shallow(ts) && Within(gs, Nesting(ts, pos))
    ensures Operand(ts, pos, gs) != TooNested
    decreases |ts| - pos, 2
  {
    SettledWithin(gs, Nesting(ts, pos));
    assert Nesting(ts, pos) + 2 <= MAX_DEPTH;
    if IsSign(ts[pos]) {
      assert Nesting(ts, pos + 1) == Nesting(ts, pos) + 1;
      OperandWithin(ts, pos + 1, Signed(gs));
      SignTurn(ts, pos, gs);
    } else if OpensAt(ts, pos) {
      GroupWithin(ts, pos, gs);
    } else {
      if IsLeaf(ts, pos) {
        assert Nesting(ts, pos + 1) == Nesting(ts, pos);
        OperatorWithin(ts, pos + 1, Settled(gs));
      }
      LeafTurn(ts, pos, gs);
    }
  }

  lemma SignTurn(ts: seq<Token>, pos: nat, gs: Groups)
    requires Ended(ts) && pos < |ts| && IsSign(ts[pos]) && gs[0].level + gs[0].signs + 1 <= MAX_DEPTH
    ensures pos + 1 < |ts| && Operand(ts, pos, gs) == Operand(ts, pos + 1, Signed(gs))
  {}

  lemma LeafTurn(ts: seq<Token>, pos: nat, gs: Groups)
    requires Ended(ts) && pos < |ts| && !IsSign(ts[pos]) && !OpensAt(ts, pos)
    requires gs[0].level + gs[0].signs + 1 <= MAX_DEPTH
    ensures IsLeaf(ts, pos) ==> pos + 1 < |ts|
    ensures Operand(ts, pos, gs) ==
            if IsLeaf(ts, pos) then Operator(ts, pos + 1, Settled(gs)) else Rejected(pos)
  {}

  lemma EnteredWithin(ts: seq<Token>, pos: nat, gs: Groups, nesting: int)
    requires Ended(ts) && pos < |ts| && OpensAt(ts, pos) && Within(gs, nesting)
    ensures Within(Entered(ts, pos, gs), nesting + 2)
  {
    assert Entered(ts, pos, gs)[1..] == gs;
  }

  lemma NestingInside(ts: seq<Token>, pos: nat)
    requires Ended(ts) && pos < |ts| && OpensAt(ts, pos)
    ensures Nesting(ts, Inside(ts, pos)) == Nesting(ts, pos) + 2
  {}

  lemma {:induction false} GroupWithin(ts: seq<Token>, pos: nat, gs: Groups)
    requires Ended(ts) && pos < |ts| && Shallow(ts) && Within(gs, Nesting(ts, pos)) && OpensAt(ts, pos)
    requires Within(Settled(gs), Nesting(ts, pos))
    ensures Operand(ts, pos, gs) != TooNested
    decreases |ts| - pos, 1
  {
    NestingInside(ts, pos);
    if KindAt(ts, pos) != Paren && ts[Inside(ts, pos)] == Closer(KindAt(ts, pos)) {
      EmptyWithin(ts, pos, gs);
    } else {
      EnteredWithin(ts, pos, gs, Nesting(ts, pos));
      OperandWithin(ts, Inside(ts, pos), Entered(ts, pos, gs));
      assert Nesting(ts, Inside(ts, pos)) + 2 <= MAX_DEPTH;
      GroupTurn(ts, pos, gs);
    }
  }

  lemma {:induction false} EmptyWithin(ts: seq<Token>, pos: nat, gs: Groups)
    requires Ended(ts) && pos < |ts| && Shallow(ts) && Within(gs, Nesting(ts, pos)) && OpensAt(ts, pos)
    requires KindAt(ts, pos) != Paren && ts[Inside(ts, pos)] == Closer(KindAt(ts, pos))
    requires Within(Settled(gs), Nesting(ts, pos))
    ensures Operand(ts, pos, gs) != TooNested
    decreases |ts| - pos, 0
  {
    EmptyGroup(ts, pos);
    OperatorWithin(ts, Inside(ts, pos) + 1, Settled(gs));
    assert Nesting(ts, pos) + 2 <= MAX_DEPTH;
    EmptyTurn(ts, pos, gs);
  }

  lemma EmptyGroup(ts: seq<Token>, pos: nat)
    requires Ended(ts) && pos < |ts| && OpensAt(ts, pos)
    requires KindAt(ts, pos) != Paren && ts[Inside(ts, pos)] == Closer(KindAt(ts, pos))
    ensures Nesting(ts, Inside(ts, pos) + 1) == Nesting(ts, pos)
  {
    NestingInside(ts, pos);
  }

  lemma InfixWithin(ts: seq<Token>, pos: nat, gs: Groups)
    requires Ended(ts) && pos < |ts| && Within(gs, Nesting(ts, pos)) && BehindInfix(ts[pos], gs).Some?
    ensures pos + 1 < |ts| && Within(BehindInfix(ts[pos], gs).value, Nesting(ts, pos + 1))
  {
    SettledWithin(gs, Nesting(ts, pos));
    assert Nesting(ts, pos + 1) >= Nesting(ts, pos);
  }

  lemma {:induction false} OperatorWithin(ts: seq<Token>, pos: nat, gs: Groups)
    requires Ended(ts) && pos < |ts| && Shallow(ts) && Within(gs, Nesting(ts, pos))
    ensures Operator(ts, pos, gs) != TooNested
    decreases |ts| - pos, 2
  {
    var next := BehindInfix(ts[pos], gs);
    InfixTurn(ts, pos, gs);
    if next.Some? {
      InfixWithin(ts, pos, gs);
      OperandWithin(ts, pos + 1, next.value);
    } else {
      ClosingWithin(ts, pos, gs);
    }
  }

  lemma {:induction false} ClosingWithin(ts: seq<Token>, pos: nat, gs: Groups)
    requires Ended(ts) && pos < |ts| && Shallow(ts) && Within(gs, Nesting(ts, pos))
    ensures Closing(ts, pos, gs) != TooNested
    decreases |ts| - pos, 0
  {
    var t, kind := ts[pos], gs[0].kind;
    if kind != Whole {
      if t == TComma && kind != Paren {
        SettledWithin(gs, Nesting(ts, pos));
        OperandWithin(ts, pos + 1, Comparing(gs, false));
      } else if t == Closer(kind) && |gs| > 1 {
        OuterWithin(gs, Nesting(ts, pos));
        OperatorWithin(ts, pos + 1, Settled(gs[1..]));
      }
    }
  }

  /** A stream whose nesting stays two below the ceiling is never refused for its depth. */
  lemma ShallowIsNeverTooDeep(ts: seq<Token>)
    requires Ended(ts) && Shallow(ts)
    ensures ParseTokensF(ts) != Err(TooDeep)
  {
    OperandWithin(ts, 0, START);
    TooDeepIff(ts);
  }

  // ----- A name in n parentheses -----

  function Parens(n: nat): (ts: seq<Token>)
    ensures |ts| == 2 * n + 2 && Ended(ts)
  {
    seq(n, _ => TLParen) + [TIdent("x")] + seq(n, _ => TRParen) + [TEof]
  }

  lemma {:induction false} NestingOfParens(n: nat, pos: nat)
    requires pos <= 2 * n + 1
    ensures Nesting(Parens(n), pos) == if pos <= n then 2 * pos else 2 * (2 * n + 1 - pos)
    decreases pos
  {
    if pos > 0 {
      NestingOfParens(n, pos - 1);
    }
  }

  lemma {:induction false} DeepParens(n: nat, pos: nat, gs: Groups)
    requires 64 <= n && pos < 64 && gs[0].level == 2 * pos + 1 && gs[0].signs == 0
    ensures Operand(Parens(n), pos, gs) == TooNested
    decreases 64 - pos
  {
    var ts := Parens(n);
    assert ts[pos] == TLParen;
    if pos < 63 {
      DeepParens(n, pos + 1, Entered(ts, pos, gs));
    }
  }

  /** The ceiling is at 64 parentheses: no fewer are refused for their depth, and all others are. */
  lemma ParensTooDeepIff(n: nat)
    ensures ParseTokensF(Parens(n)) == Err(TooDeep) <==> n >= 64
  {
    if n >= 64 {
      DeepParens(n, 0, START);
      TooDeepIff(Parens(n));
    } else {
      forall pos | 0 <= pos < |Parens(n)|
        ensures Nesting(Parens(n), pos) + 2 <= MAX_DEPTH
      {
        NestingOfParens(n, pos);
      }
      ShallowIsNeverTooDeep(Parens(n));
    }
  }
}
