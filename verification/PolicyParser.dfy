/** The recursive-descent parser of the policy language: first as functions on a token
    stream, then as the class whose methods move `pos` and `depth` as the source does. */
module PolicyParser {
  import opened PolicyAst

  const MAX_DEPTH: int := 128

  datatype ParseError = TooDeep | TooLong | BadToken(at: nat) | BadLexeme

  datatype Outcome = Done(node: Node, pos: nat) | Fail(error: ParseError)

  datatype ItemsOutcome = Items(nodes: seq<Node>, next: nat) | ItemsFail(err: ParseError)

  // ----- The grammar as functions.  `depth` counts the enclosing levels. -----

  function OrF(ts: seq<Token>, pos: nat, depth: int): (r: Outcome)
    requires Ended(ts) && pos < |ts|
    ensures r.Done? ==> pos < r.pos < |ts|
    decreases |ts| - pos, 7
  {
    if depth + 1 > MAX_DEPTH then Fail(TooDeep) else
    match AndF(ts, pos, depth + 1)
    case Fail(e) => Fail(e)
    case Done(left, p) => OrLoopF(ts, left, p, depth + 1)
  }

  function OrLoopF(ts: seq<Token>, left: Node, pos: nat, depth: int): (r: Outcome)
    requires Ended(ts) && pos < |ts|
    ensures r.Done? ==> pos <= r.pos < |ts|
    decreases |ts| - pos, 8
  {
    if ts[pos] != TOr then Done(left, pos) else
    match AndF(ts, pos + 1, depth)
    case Fail(e) => Fail(e)
    case Done(right, p) => OrLoopF(ts, Binary(Or, left, right), p, depth)
  }

  function AndF(ts: seq<Token>, pos: nat, depth: int): (r: Outcome)
    requires Ended(ts) && pos < |ts|
    ensures r.Done? ==> pos < r.pos < |ts|
    decreases |ts| - pos, 6
  {
    match CmpF(ts, pos, depth)
    case Fail(e) => Fail(e)
    case Done(left, p) => AndLoopF(ts, left, p, depth)
  }

  function AndLoopF(ts: seq<Token>, left: Node, pos: nat, depth: int): (r: Outcome)
    requires Ended(ts) && pos < |ts|
    ensures r.Done? ==> pos <= r.pos < |ts|
    decreases |ts| - pos, 8
  {
    if ts[pos] != TAnd then Done(left, pos) else
    match CmpF(ts, pos + 1, depth)
    case Fail(e) => Fail(e)
    case Done(right, p) => AndLoopF(ts, Binary(And, left, right), p, depth)
  }

  function CmpF(ts: seq<Token>, pos: nat, depth: int): (r: Outcome)
    requires Ended(ts) && pos < |ts|
    ensures r.Done? ==> pos < r.pos < |ts|
    decreases |ts| - pos, 5
  {
    match AddF(ts, pos, depth)
    case Fail(e) => Fail(e)
    case Done(left, p) =>
      if !IsCmpToken(ts[p]) then Done(left, p) else
      match AddF(ts, p + 1, depth)
      case Fail(e) => Fail(e)
      case Done(right, q) => Done(Binary(CmpOp(ts[p]), left, right), q)
  }

  function AddF(ts: seq<Token>, pos: nat, depth: int): (r: Outcome)
    requires Ended(ts) && pos < |ts|
    ensures r.Done? ==> pos < r.pos < |ts|
    decreases |ts| - pos, 4
  {
    match UnaryF(ts, pos, depth)
    case Fail(e) => Fail(e)
    case Done(left, p) => AddLoopF(ts, left, p, depth)
  }

  function AddLoopF(ts: seq<Token>, left: Node, pos: nat, depth: int): (r: Outcome)
    requires Ended(ts) && pos < |ts|
    ensures r.Done? ==> pos <= r.pos < |ts|
    decreases |ts| - pos, 8
  {
    if ts[pos] != TPlus && ts[pos] != TMinus then Done(left, pos) else
    match UnaryF(ts, pos + 1, depth)
    case Fail(e) => Fail(e)
    case Done(right, p) =>
      AddLoopF(ts, Binary(if ts[pos] == TPlus then Plus else Minus, left, right), p, depth)
  }

  function UnaryF(ts: seq<Token>, pos: nat, depth: int): (r: Outcome)
    requires Ended(ts) && pos < |ts|
    ensures r.Done? ==> pos < r.pos < |ts|
    decreases |ts| - pos, 3
  {
    if ts[pos] != TNot && ts[pos] != TMinus then PrimaryF(ts, pos, depth) else
    if depth + 1 > MAX_DEPTH then Fail(TooDeep) else
    match UnaryF(ts, pos + 1, depth + 1)
    case Fail(e) => Fail(e)
    case Done(x, p) => Done(Unary(if ts[pos] == TNot then Not else Neg, x), p)
  }

  function PrimaryF(ts: seq<Token>, pos: nat, depth: int): (r: Outcome)
    requires Ended(ts) && pos < |ts|
    ensures r.Done? ==> pos < r.pos < |ts|
    decreases |ts| - pos, 2
  {
    if depth + 1 > MAX_DEPTH then Fail(TooDeep) else
    match ts[pos]
    case TNumber(_, num) => Done(Lit(Num(num)), pos + 1)
    case TString(s) => Done(Lit(Str(s)), pos + 1)
    case TTrue => Done(Lit(Bool(true)), pos + 1)
    case TFalse => Done(Lit(Bool(false)), pos + 1)
    case TLBracket =>
      (match ItemsF(ts, pos + 1, depth + 1, TRBracket)
       case ItemsFail(e) => Fail(e)
       case Items(es, p) => Done(ListLit(es), p))
    case TLParen =>
      (match OrF(ts, pos + 1, depth + 1)
       case Fail(e) => Fail(e)
       case Done(x, p) => if ts[p] == TRParen then Done(x, p + 1) else Fail(BadToken(p)))
    case TIdent(name) =>
      if ts[pos + 1] != TLParen then Done(Ident(name), pos + 1) else
      (match ItemsF(ts, pos + 2, depth + 1, TRParen)
       case ItemsFail(e) => Fail(e)
       case Items(es, p) => Done(Call(name, es), p))
    case _ => Fail(BadToken(pos))
  }

  /** The elements of a list or call up to and including the closing token. */
  function ItemsF(ts: seq<Token>, pos: nat, depth: int, close: Token): (r: ItemsOutcome)
    requires Ended(ts) && pos < |ts| && close != TEof
    ensures r.Items? ==> pos < r.next < |ts|
    decreases |ts| - pos, 10
  {
    if ts[pos] == close then Items([], pos + 1) else ItemsLoopF(ts, [], pos, depth, close)
  }

  function ItemsLoopF(ts: seq<Token>, acc: seq<Node>, pos: nat, depth: int, close: Token): (r: ItemsOutcome)
    requires Ended(ts) && pos < |ts| && close != TEof
    ensures r.Items? ==> pos < r.next < |ts|
    decreases |ts| - pos, 9
  {
    match OrF(ts, pos, depth)
    case Fail(e) => ItemsFail(e)
    case Done(x, p) =>
      if ts[p] == TComma then ItemsLoopF(ts, acc + [x], p + 1, depth, close)
      else if ts[p] == close then Items(acc + [x], p + 1)
      else ItemsFail(BadToken(p))
  }

  // One turn of each parse function, so that a proof unfolds nothing else.

  lemma OrStart(ts: seq<Token>, pos: nat, d: int, left: Node, p: nat)
    requires Ended(ts) && pos < |ts| && d + 1 <= MAX_DEPTH && AndF(ts, pos, d + 1) == Done(left, p)
    ensures OrF(ts, pos, d) == OrLoopF(ts, left, p, d + 1)
  {}

  lemma OrTurn(ts: seq<Token>, left: Node, pos: nat, d: int, right: Node, p: nat)
    requires Ended(ts) && pos < |ts| && ts[pos] == TOr && AndF(ts, pos + 1, d) == Done(right, p)
    ensures OrLoopF(ts, left, pos, d) == OrLoopF(ts, Binary(Or, left, right), p, d)
  {}

  lemma AndStart(ts: seq<Token>, pos: nat, d: int, left: Node, p: nat)
    requires Ended(ts) && pos < |ts| && CmpF(ts, pos, d) == Done(left, p)
    ensures AndF(ts, pos, d) == AndLoopF(ts, left, p, d)
  {}

  lemma AndTurn(ts: seq<Token>, left: Node, pos: nat, d: int, right: Node, p: nat)
    requires Ended(ts) && pos < |ts| && ts[pos] == TAnd && CmpF(ts, pos + 1, d) == Done(right, p)
    ensures AndLoopF(ts, left, pos, d) == AndLoopF(ts, Binary(And, left, right), p, d)
  {}

  lemma CmpTurn(ts: seq<Token>, op: BinOp, pos: nat, d: int, left: Node, p: nat, right: Node, q: nat)
    requires IsCmpToken(BinToken(op))
    requires Ended(ts) && pos < |ts| && AddF(ts, pos, d) == Done(left, p) && ts[p] == BinToken(op)
    requires AddF(ts, p + 1, d) == Done(right, q)
    ensures CmpF(ts, pos, d) == Done(Binary(op, left, right), q)
  {}

  lemma AddStart(ts: seq<Token>, pos: nat, d: int, left: Node, p: nat)
    requires Ended(ts) && pos < |ts| && UnaryF(ts, pos, d) == Done(left, p)
    ensures AddF(ts, pos, d) == AddLoopF(ts, left, p, d)
  {}

  lemma AddTurn(ts: seq<Token>, op: BinOp, left: Node, pos: nat, d: int, right: Node, p: nat)
    requires op == Plus || op == Minus
    requires Ended(ts) && pos < |ts| && ts[pos] == BinToken(op) && UnaryF(ts, pos + 1, d) == Done(right, p)
    ensures AddLoopF(ts, left, pos, d) == AddLoopF(ts, Binary(op, left, right), p, d)
  {}

  lemma ItemsTurn(ts: seq<Token>, acc: seq<Node>, pos: nat, d: int, close: Token, x: Node, p: nat)
    requires Ended(ts) && pos < |ts| && close != TEof && OrF(ts, pos, d) == Done(x, p) && ts[p] == TComma
    ensures ItemsLoopF(ts, acc, pos, d, close) == ItemsLoopF(ts, acc + [x], p + 1, d, close)
  {}

  lemma ItemsLast(ts: seq<Token>, acc: seq<Node>, pos: nat, d: int, close: Token, x: Node, p: nat)
    requires Ended(ts) && pos < |ts| && close != TEof && OrF(ts, pos, d) == Done(x, p) && ts[p] != TComma
    ensures ItemsLoopF(ts, acc, pos, d, close) ==
            if ts[p] == close then Items(acc + [x], p + 1) else ItemsFail(BadToken(p))
  {}

  lemma ItemsStop(ts: seq<Token>, acc: seq<Node>, pos: nat, d: int, close: Token)
    requires Ended(ts) && pos < |ts| && close != TEof && OrF(ts, pos, d).Fail?
    ensures ItemsLoopF(ts, acc, pos, d, close) == ItemsFail(OrF(ts, pos, d).error)
  {}

  lemma LeafTurn(ts: seq<Token>, pos: nat, d: int)
    requires Ended(ts) && pos < |ts| && d + 1 <= MAX_DEPTH
    ensures match ts[pos]
            case TNumber(_, num) => PrimaryF(ts, pos, d) == Done(Lit(Num(num)), pos + 1)
            case TString(s) => PrimaryF(ts, pos, d) == Done(Lit(Str(s)), pos + 1)
            case TTrue => PrimaryF(ts, pos, d) == Done(Lit(Bool(true)), pos + 1)
            case TFalse => PrimaryF(ts, pos, d) == Done(Lit(Bool(false)), pos + 1)
            case TIdent(name) => ts[pos + 1] != TLParen ==> PrimaryF(ts, pos, d) == Done(Ident(name), pos + 1)
            case _ => true
  {}

  lemma ParenTurn(ts: seq<Token>, pos: nat, d: int, x: Node, p: nat)
    requires Ended(ts) && pos < |ts| - 1 && d + 1 <= MAX_DEPTH && ts[pos] == TLParen
    requires OrF(ts, pos + 1, d + 1) == Done(x, p) && ts[p] == TRParen
    ensures PrimaryF(ts, pos, d) == Done(x, p + 1)
  {}

  lemma ListTurn(ts: seq<Token>, pos: nat, d: int, es: seq<Node>, p: nat)
    requires Ended(ts) && pos < |ts| - 1 && d + 1 <= MAX_DEPTH && ts[pos] == TLBracket
    requires ItemsF(ts, pos + 1, d + 1, TRBracket) == Items(es, p)
    ensures PrimaryF(ts, pos, d) == Done(ListLit(es), p)
  {}

  lemma CallTurn(ts: seq<Token>, pos: nat, d: int, es: seq<Node>, p: nat)
    requires Ended(ts) && pos < |ts| - 2 && d + 1 <= MAX_DEPTH && ts[pos].TIdent? && ts[pos + 1] == TLParen
    requires ItemsF(ts, pos + 2, d + 1, TRParen) == Items(es, p)
    ensures PrimaryF(ts, pos, d) == Done(Call(ts[pos].name, es), p)
  {}

  datatype Parsed = Ok(node: Node) | Err(error: ParseError)

  /** parseExpr after lexing: one expression, then the end. */
  function ParseTokensF(ts: seq<Token>): Parsed
    requires Ended(ts)
  {
    match OrF(ts, 0, 0)
    case Fail(e) => Err(e)
    case Done(n, p) => if ts[p] == TEof then Ok(n) else Err(BadToken(p))
  }

  // ----- The parser object. -----

  class Parser {
    const toks: seq<Token>
    var pos: nat
    var depth: nat

    ghost predicate Valid()
      reads this
    {
      Ended(toks) && pos < |toks| && depth <= MAX_DEPTH
    }

    constructor (ts: seq<Token>)
      requires Ended(ts)
      ensures Valid() && toks == ts && pos == 0 && depth == 0
    {
      toks := ts;
      pos := 0;
      depth := 0;
    }

    function Peek(): Token
      requires Valid()
      reads this
    {
      toks[pos]
    }

    method Next() returns (t: Token)
      requires Valid()
      modifies this`pos
      ensures Valid() && t == old(Peek())
      ensures pos == if old(pos) == |toks| - 1 then old(pos) else old(pos) + 1
    {
      t := toks[pos];
      if pos < |toks| - 1 {
        pos := pos + 1;
      }
    }

    /** What every parse method leaves behind: the outcome the grammar function gives, the
        position after it, and the depth it started from.  Only a refused `enter` leaves its
        increment in place. */
    twostate predicate Left(r: Outcome)
      reads this
    {
      && pos < |toks|
      && old(pos) <= pos
      && (r.Done? ==> pos == r.pos)
      && depth == old(depth) + (if r == Fail(TooDeep) then 1 else 0)
    }

    method ParseOr() returns (r: Outcome)
      requires Valid()
      modifies this
      ensures r == OrF(toks, old(pos), old(depth)) && Left(r)
      decreases |toks| - pos, 8
    {
      depth := depth + 1;
      if depth > MAX_DEPTH {
        return Fail(TooDeep);
      }
      r := ParseAnd();
      if r.Done? {
        ghost var start, left := pos, r.node;
        while r.Done? && Peek() == TOr
          invariant Ended(toks) && old(pos) < start <= pos < |toks|
          invariant r.Done? ==> depth == old(depth) + 1 && pos == r.pos
          invariant r.Fail? ==> depth == old(depth) + 1 + (if r == Fail(TooDeep) then 1 else 0)
          invariant OrLoopF(toks, left, start, old(depth) + 1) ==
                    if r.Done? then OrLoopF(toks, r.node, pos, old(depth) + 1) else r
          decreases r.Done?, |toks| - pos
        {
          var l := r.node;
          var _ := Next();
          r := ParseAnd();
          if r.Done? {
            r := r.(node := Binary(Or, l, r.node));
          }
        }
      }
      depth := depth - 1;
    }

    method ParseAnd() returns (r: Outcome)
      requires Valid()
      modifies this
      ensures r == AndF(toks, old(pos), old(depth)) && Left(r)
      decreases |toks| - pos, 7
    {
      r := ParseComparison();
      if r.Done? {
        ghost var start, left := pos, r.node;
        while r.Done? && Peek() == TAnd
          invariant Ended(toks) && old(pos) < start <= pos < |toks|
          invariant r.Done? ==> depth == old(depth) && pos == r.pos
          invariant r.Fail? ==> depth == old(depth) + (if r == Fail(TooDeep) then 1 else 0)
          invariant AndLoopF(toks, left, start, old(depth)) ==
                    if r.Done? then AndLoopF(toks, r.node, pos, old(depth)) else r
          decreases r.Done?, |toks| - pos
        {
          var l := r.node;
          var _ := Next();
          r := ParseComparison();
          if r.Done? {
            r := r.(node := Binary(And, l, r.node));
          }
        }
      }
    }

    method ParseComparison() returns (r: Outcome)
      requires Valid()
      modifies this
      ensures r == CmpF(toks, old(pos), old(depth)) && Left(r)
      decreases |toks| - pos, 6
    {
      r := ParseAdditive();
      if r.Done? && IsCmpToken(Peek()) {
        var l := r.node;
        var op := Next();
        r := ParseAdditive();
        if r.Done? {
          r := r.(node := Binary(CmpOp(op), l, r.node));
        }
      }
    }

    method ParseAdditive() returns (r: Outcome)
      requires Valid()
      modifies this
      ensures r == AddF(toks, old(pos), old(depth)) && Left(r)
      decreases |toks| - pos, 5
    {
      r := ParseUnary();
      if r.Done? {
        ghost var start, left := pos, r.node;
        while r.Done? && (Peek() == TPlus || Peek() == TMinus)
          invariant Ended(toks) && old(pos) < start <= pos < |toks|
          invariant r.Done? ==> depth == old(depth) && pos == r.pos
          invariant r.Fail? ==> depth == old(depth) + (if r == Fail(TooDeep) then 1 else 0)
          invariant AddLoopF(toks, left, start, old(depth)) ==
                    if r.Done? then AddLoopF(toks, r.node, pos, old(depth)) else r
          decreases r.Done?, |toks| - pos
        {
          r := AddOperand(r.node);
        }
      }
    }

    /** One sign and its right operand behind the sum l. */
    method AddOperand(l: Node) returns (r: Outcome)
      requires Valid() && (Peek() == TPlus || Peek() == TMinus)
      modifies this
      ensures Left(r) && (r.Done? ==> pos > old(pos))
      ensures AddLoopF(toks, l, old(pos), old(depth)) ==
              if r.Done? then AddLoopF(toks, r.node, pos, old(depth)) else r
      decreases |toks| - pos, 4
    {
      var op := Next();
      r := ParseUnary();
      if r.Done? {
        AddTurn(toks, if op == TPlus then Plus else Minus, l, old(pos), old(depth), r.node, pos);
        r := r.(node := Binary(if op == TPlus then Plus else Minus, l, r.node));
      }
    }

    method ParseUnary() returns (r: Outcome)
      requires Valid()
      modifies this
      ensures r == UnaryF(toks, old(pos), old(depth)) && Left(r)
      decreases |toks| - pos, 3
    {
      if Peek() == TNot || Peek() == TMinus {
        depth := depth + 1;
        if depth > MAX_DEPTH {
          return Fail(TooDeep);
        }
        var op := Next();
        r := ParseUnary();
        if r.Done? {
          r := r.(node := Unary(if op == TNot then Not else Neg, r.node));
        }
        depth := depth - 1;
      } else {
        r := ParsePrimary();
      }
    }

    method ParsePrimary() returns (r: Outcome)
      requires Valid()
      modifies this
      ensures r == PrimaryF(toks, old(pos), old(depth)) && Left(r)
      decreases |toks| - pos, 2
    {
      depth := depth + 1;
      if depth > MAX_DEPTH {
        return Fail(TooDeep);
      }
      match Peek() {
        case TNumber(_, num) =>
          var _ := Next();
          r := Done(Lit(Num(num)), pos);
        case TString(s) =>
          var _ := Next();
          r := Done(Lit(Str(s)), pos);
        case TTrue =>
          var _ := Next();
          r := Done(Lit(Bool(true)), pos);
        case TFalse =>
          var _ := Next();
          r := Done(Lit(Bool(false)), pos);
        case TLBracket =>
          r := ParseList();
        case TLParen =>
          var _ := Next();
          r := ParseOr();
          if r.Done? {
            if Peek() != TRParen {
              r := Fail(BadToken(pos));
            } else {
              var _ := Next();
              r := r.(pos := pos);
            }
          }
        case TIdent(_) =>
          r := ParseIdentOrCall();
        case _ =>
          r := Fail(BadToken(pos));
      }
      depth := depth - 1;
    }

    method ParseList() returns (r: Outcome)
      requires Valid() && Peek() == TLBracket
      modifies this
      ensures Left(r)
      ensures r == match ItemsF(toks, old(pos) + 1, old(depth), TRBracket)
                   case ItemsFail(e) => Fail(e)
                   case Items(es, p) => Done(ListLit(es), p)
      decreases |toks| - pos, 1
    {
      var _ := Next();
      var items := ParseItems(TRBracket);
      match items {
        case ItemsFail(e) => r := Fail(e);
        case Items(es, _) => r := Done(ListLit(es), pos);
      }
    }

    method ParseIdentOrCall() returns (r: Outcome)
      requires Valid() && Peek().TIdent?
      modifies this
      ensures Left(r)
      ensures r == if toks[old(pos) + 1] != TLParen then Done(Ident(toks[old(pos)].name), old(pos) + 1) else
                   match ItemsF(toks, old(pos) + 2, old(depth), TRParen)
                   case ItemsFail(e) => Fail(e)
                   case Items(es, p) => Done(Call(toks[old(pos)].name, es), p)
      decreases |toks| - pos, 1
    {
      var t := Next();
      if Peek() != TLParen {
        return Done(Ident(t.name), pos);
      }
      var _ := Next();
      var items := ParseItems(TRParen);
      match items {
        case ItemsFail(e) => r := Fail(e);
        case Items(es, _) => r := Done(Call(t.name, es), pos);
      }
    }

    /** The element loop shared by list literals and calls, with the closing token. */
    method ParseItems(close: Token) returns (r: ItemsOutcome)
      requires Valid() && close != TEof
      modifies this
      ensures r == ItemsF(toks, old(pos), old(depth), close)
      ensures old(pos) <= pos < |toks| && (r.Items? ==> pos == r.next)
      ensures depth == old(depth) + (if r == ItemsFail(TooDeep) then 1 else 0)
      decreases |toks| - pos, 10
    {
      var elems: seq<Node> := [];
      if Peek() != close {
        while true
          invariant Ended(toks) && old(pos) <= pos < |toks| && depth == old(depth)
          invariant ItemsLoopF(toks, [], old(pos), old(depth), close) ==
                    ItemsLoopF(toks, elems, pos, old(depth), close)
          decreases |toks| - pos
        {
          ghost var start, before := pos, elems;
          var e := ParseOr();
          if e.Fail? {
            ItemsStop(toks, elems, start, old(depth), close);
            return ItemsFail(e.error);
          }
          elems := elems + [e.node];
          if Peek() != TComma {
            ItemsLast(toks, before, start, old(depth), close, e.node, pos);
            break;
          }
          ItemsTurn(toks, before, start, old(depth), close, e.node, pos);
          var _ := Next();
        }
      }
      if Peek() != close {
        return ItemsFail(BadToken(pos));
      }
      var _ := Next();
      r := Items(elems, pos);
    }
  }

  /** parseExpr on a lexed input. */
  method ParseTokens(ts: seq<Token>) returns (r: Parsed)
    requires Ended(ts)
    ensures r == ParseTokensF(ts)
  {
    var p := new Parser(ts);
    var n := p.ParseOr();
    if n.Fail? {
      return Err(n.error);
    }
    if p.Peek() != TEof {
      return Err(BadToken(p.pos));
    }
    r := Ok(n.node);
  }
}
