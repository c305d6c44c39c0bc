/** The data the policy language works on: run-time values, tokens and syntax trees.
    Columns are not modelled: the source uses them only inside error texts. */
module PolicyAst {

  /** A dynamically typed value.  Floating-point numbers are modelled as reals. */
  datatype Value = Bool(b: bool) | Num(n: real) | Str(s: string) | List(vs: seq<Value>)

  datatype UnOp = Not | Neg

  datatype BinOp = Or | And | Eq | Ne | Lt | Le | Gt | Ge | Plus | Minus

  datatype Node =
    | Lit(v: Value)
    | ListLit(elems: seq<Node>)
    | Ident(name: string)
    | Call(name: string, args: seq<Node>)
    | Unary(op: UnOp, x: Node)
    | Binary(bop: BinOp, l: Node, r: Node)

  /** Nodes of a tree, and of a list of trees. */
  function NodeCount(n: Node): nat
  {
    match n
    case Lit(_) => 1
    case Ident(_) => 1
    case ListLit(es) => 1 + NodeCounts(es)
    case Call(_, es) => 1 + NodeCounts(es)
    case Unary(_, x) => 1 + NodeCount(x)
    case Binary(_, l, r) => 1 + NodeCount(l) + NodeCount(r)
  }

  function NodeCounts(ns: seq<Node>): nat
  {
    if ns == [] then 0 else NodeCount(ns[0]) + NodeCounts(ns[1..])
  }

  /** A lexeme.  TMinus is both the infix and the prefix sign. */
  datatype Token =
    | TEof
    | TNumber(text: string, num: real)
    | TString(str: string)
    | TIdent(name: string)
    | TLParen | TRParen | TLBracket | TRBracket | TComma
    | TAnd | TOr | TNot
    | TEq | TNe | TLt | TLe | TGt | TGe
    | TPlus | TMinus
    | TTrue | TFalse

  /** A token stream that ends with the end marker; this is all the parser relies on. */
  ghost predicate Ended(ts: seq<Token>)
  {
    |ts| > 0 && ts[|ts| - 1] == TEof
  }

  /** A token stream as the lexer delivers it: one end marker, at the end. */
  ghost predicate ValidToks(ts: seq<Token>)
  {
    Ended(ts) && forall i :: 0 <= i < |ts| - 1 ==> ts[i] != TEof
  }

  function BinToken(op: BinOp): (t: Token)
  {
    match op
    case Or => TOr
    case And => TAnd
    case Eq => TEq
    case Ne => TNe
    case Lt => TLt
    case Le => TLe
    case Gt => TGt
    case Ge => TGe
    case Plus => TPlus
    case Minus => TMinus
  }

  function UnToken(op: UnOp): Token
  {
    match op
    case Not => TNot
    case Neg => TMinus
  }

  predicate IsCmpToken(t: Token)
  {
    t.TEq? || t.TNe? || t.TLt? || t.TLe? || t.TGt? || t.TGe?
  }

  function CmpOp(t: Token): (op: BinOp)
    requires IsCmpToken(t)
    ensures BinToken(op) == t
  {
    match t
    case TEq => Eq
    case TNe => Ne
    case TLt => Lt
    case TLe => Le
    case TGt => Gt
    case TGe => Ge
  }
}
