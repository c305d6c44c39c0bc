/** What compiling a rule establishes: the check a rule passes before it is ever evaluated,
    the failures that check rules out on every input, and type soundness. */
module PolicyTypes {
  import opened Options
  import opened PolicyAst
  import opened PolicyEval

  // ----- The check -----

  datatype SemanticError =
    | NoSuchIdent(name: string)
    | NoSuchFunc(name: string)
    | WrongArity(name: string, want: nat, got: nat)
    | MalformedPattern(pattern: string)

  datatype Type = BoolType | NumType | StrType | ListType

  /** The type of a bare identifier, where the name is one. */
  function VariableType(name: string): Option<Type>
  {
    if name == "finding_count" then Some(NumType)
    else if name == "registry" || name == "repository" || name == "tag" || name == "digest" || name == "image_ref"
            || name == "max_severity" then Some(StrType)
    else if name == "signed" || name == "digest_pinned" || name == "workload_present" || name == "privileged"
            || name == "runs_as_root" || name == "host_network" || name == "host_pid" || name == "host_ipc"
            || name == "read_only_root_fs" || name == "allow_privilege_escalation" || name == "uses_host_path" then
      Some(BoolType)
    else None
  }

  /** Which argument of a function is a pattern. */
  function PatternIndex(name: string): (r: Option<nat>)
    ensures r.Some? ==> Arity(name).Some? && r.value < Arity(name).value
  {
    if name == "resource_matches" then Some(0) else if name == "matches" then Some(1) else None
  }

  function CheckPattern(lib: Library, name: string, args: seq<Node>): Option<SemanticError>
  {
    var i := PatternIndex(name);
    if i.None? || i.value >= |args| then None else
    var pat := args[i.value];
    if !pat.Lit? || !pat.v.Str? || lib.compile(pat.v.s).Some? then None
    else Some(MalformedPattern(pat.v.s))
  }

  /** What is checked at one node. */
  function CheckNode(lib: Library, n: Node): Option<SemanticError>
  {
    match n
    case Ident(name) => if VariableType(name).None? then Some(NoSuchIdent(name)) else None
    case Call(name, args) =>
      if Arity(name).None? then Some(NoSuchFunc(name))
      else if |args| != Arity(name).value then Some(WrongArity(name, Arity(name).value, |args|))
      else CheckPattern(lib, name, args)
    case _ => None
  }

  /** validateSemantics: the first complaint on a walk of the tree from the root. */
  function Check(lib: Library, n: Node): Option<SemanticError>
    decreases n, 0
  {
    if CheckNode(lib, n).Some? then CheckNode(lib, n) else
    match n
    case Lit(_) => None
    case Ident(_) => None
    case ListLit(es) => CheckAll(lib, es)
    case Call(_, es) => CheckAll(lib, es)
    case Unary(_, x) => Check(lib, x)
    case Binary(_, l, r) => if Check(lib, l).Some? then Check(lib, l) else Check(lib, r)
  }

  function CheckAll(lib: Library, ns: seq<Node>): Option<SemanticError>
    decreases ns, 1
  {
    if ns == [] then None
    else if Check(lib, ns[0]).Some? then Check(lib, ns[0])
    else CheckAll(lib, ns[1..])
  }

  /** x occurs in n. */
  ghost predicate Within(x: Node, n: Node)
    decreases n
  {
    x == n ||
    match n
    case Lit(_) => false
    case Ident(_) => false
    case ListLit(es) => exists i :: 0 <= i < |es| && Within(x, es[i])
    case Call(_, es) => exists i :: 0 <= i < |es| && Within(x, es[i])
    case Unary(_, y) => Within(x, y)
    case Binary(_, l, r) => Within(x, l) || Within(x, r)
  }

  lemma {:induction false} CheckAllIsEach(lib: Library, ns: seq<Node>)
    ensures CheckAll(lib, ns).None? <==> forall i :: 0 <= i < |ns| ==> Check(lib, ns[i]).None?
    decreases |ns|
  {
    if ns != [] {
      CheckAllIsEach(lib, ns[1..]);
      assert forall i :: 0 < i < |ns| ==> ns[i] == ns[1..][i - 1];
    }
  }

  /** The walk misses no node: a tree passes exactly when each of its nodes does. */
  lemma {:induction false} CheckReachesEveryNode(lib: Library, n: Node)
    ensures Check(lib, n).None? <==> forall x :: Within(x, n) ==> CheckNode(lib, x).None?
    decreases n
  {
    assert Within(n, n);
    match n
    case Lit(_) =>
    case Ident(_) =>
    case ListLit(es) => CheckReachesChildren(lib, n, es);
    case Call(_, es) => CheckReachesChildren(lib, n, es);
    case Unary(_, x) =>
      CheckReachesEveryNode(lib, x);
      assert forall y :: Within(y, x) ==> Within(y, n);
    case Binary(_, l, r) =>
      CheckReachesEveryNode(lib, l);
      CheckReachesEveryNode(lib, r);
      assert forall y :: Within(y, l) || Within(y, r) ==> Within(y, n);
  }

  lemma {:induction false} CheckReachesChildren(lib: Library, n: Node, es: seq<Node>)
    requires n == ListLit(es) || (n.Call? && n.args == es)
    ensures Check(lib, n).None? <==> forall x :: Within(x, n) ==> CheckNode(lib, x).None?
    decreases n, 0
  {
    assert Within(n, n);
    CheckAllIsEach(lib, es);
    forall i | 0 <= i < |es|
      ensures Check(lib, es[i]).None? <==> forall x :: Within(x, es[i]) ==> CheckNode(lib, x).None?
      ensures forall x :: Within(x, es[i]) ==> Within(x, n)
    {
      CheckReachesEveryNode(lib, es[i]);
    }
  }

  // ----- Failures that compiling rules out -----

  lemma {:induction false} ListOutcome(lib: Library, inp: Input, ns: seq<Node>)
    ensures var r := EvalListF(lib, inp, ns);
            if r.All? then
              |r.vs| == |ns| && forall i :: 0 <= i < |ns| ==> EvalF(lib, inp, ns[i]) == Got(r.vs[i])
            else exists i :: 0 <= i < |ns| && EvalF(lib, inp, ns[i]) == Failed(r.e)
    decreases |ns|
  {
    if ns != [] {
      var init := ns[..|ns| - 1];
      ListOutcome(lib, inp, init);
      assert forall i :: 0 <= i < |init| ==> init[i] == ns[i];
    }
  }

  lemma VariableTypes(inp: Input, name: string)
    ensures Variable(inp, name).Some? <==> VariableType(name).Some?
    ensures Variable(inp, name).Some? ==> HasType(Variable(inp, name).value, VariableType(name).value)
  {}

  /** x passes to a pattern argument something other than a string literal. */
  ghost predicate ComputesPattern(x: Node)
  {
    && x.Call? && PatternIndex(x.name).Some? && PatternIndex(x.name).value < |x.args|
    && !(x.args[PatternIndex(x.name).value].Lit? && x.args[PatternIndex(x.name).value].v.Str?)
  }

  /** The failures a checked tree can still meet: type errors of the author's, and a bad
      pattern where a pattern is computed. */
  ghost predicate Tolerated(n: Node, e: EvalError)
  {
    match e
    case UnknownIdent(_) => false
    case UnknownFunc(_) => false
    case ArgumentIndex => false
    case BadRegexp(_) => exists x :: Within(x, n) && ComputesPattern(x)
    case _ => true
  }

  lemma ToleratedInParent(x: Node, n: Node, e: EvalError)
    requires Tolerated(x, e) && forall y :: Within(y, x) ==> Within(y, n)
    ensures Tolerated(n, e)
  {}

  /** A tree that compiles never meets an unknown name, a missing argument or a malformed
      literal pattern, on any input. */
  lemma {:induction false} CheckedNeverFailsOnNames(lib: Library, inp: Input, n: Node)
    requires Check(lib, n).None?
    ensures EvalF(lib, inp, n).Failed? ==> Tolerated(n, EvalF(lib, inp, n).e)
    decreases n
  {
    match n
    case Lit(_) =>
    case Ident(name) => VariableTypes(inp, name);
    case ListLit(es) => CheckedListFails(lib, inp, n, es);
    case Call(name, es) =>
      CheckedListFails(lib, inp, n, es);
      ListOutcome(lib, inp, es);
      var vs := EvalListF(lib, inp, es);
      if vs.All? {
        CheckedCallFails(lib, inp, n, vs.vs);
      }
    case Unary(_, x) =>
      CheckedNeverFailsOnNames(lib, inp, x);
      if EvalF(lib, inp, x).Failed? {
        ToleratedInParent(x, n, EvalF(lib, inp, x).e);
      }
    case Binary(_, l, r) =>
      CheckedNeverFailsOnNames(lib, inp, l);
      CheckedNeverFailsOnNames(lib, inp, r);
      if EvalF(lib, inp, l).Failed? {
        ToleratedInParent(l, n, EvalF(lib, inp, l).e);
      }
      if EvalF(lib, inp, r).Failed? {
        ToleratedInParent(r, n, EvalF(lib, inp, r).e);
      }
  }

  lemma {:induction false} CheckedListFails(lib: Library, inp: Input, n: Node, es: seq<Node>)
    requires Check(lib, n).None? && (n == ListLit(es) || (n.Call? && n.args == es))
    ensures EvalListF(lib, inp, es).FirstFailed? ==> Tolerated(n, EvalListF(lib, inp, es).e)
    decreases n, 0
  {
    ListOutcome(lib, inp, es);
    CheckAllIsEach(lib, es);
    var vs := EvalListF(lib, inp, es);
    if vs.FirstFailed? {
      var i :| 0 <= i < |es| && EvalF(lib, inp, es[i]) == Failed(vs.e);
      CheckedNeverFailsOnNames(lib, inp, es[i]);
      ToleratedInParent(es[i], n, vs.e);
    }
  }

  lemma CheckedCallFails(lib: Library, inp: Input, n: Node, vs: seq<Value>)
    requires n.Call? && CheckNode(lib, n).None? && EvalListF(lib, inp, n.args) == All(vs)
    ensures Apply(lib, inp, n.name, vs).Failed? ==> Tolerated(n, Apply(lib, inp, n.name, vs).e)
  {
    ListOutcome(lib, inp, n.args);
    assert Within(n, n);
    if PatternIndex(n.name).Some? {
      var pat := n.args[PatternIndex(n.name).value];
      if pat.Lit? && pat.v.Str? {
        assert vs[PatternIndex(n.name).value] == pat.v;
      }
    }
  }

  // ----- Type soundness -----

  predicate HasType(v: Value, t: Type)
  {
    match t
    case BoolType => v.Bool?
    case NumType => v.Num?
    case StrType => v.Str?
    case ListType => v.List?
  }

  function TypeOfValue(v: Value): Type
  {
    match v
    case Bool(_) => BoolType
    case Num(_) => NumType
    case Str(_) => StrType
    case List(_) => ListType
  }

  function ResultType(name: string): Type
  {
    if name == "severity_count" || name == "severity_atleast" || name == "module_count" then NumType
    else if name == "lower" then StrType
    else BoolType
  }

  /** The types the builtin takes, with a literal for a pattern. */
  predicate Fits(name: string, args: seq<Node>, types: seq<Type>)
    requires |args| == |types|
  {
    && Arity(name) == Some(|types|)
    && (if name == "in" then types[1] == ListType else forall i :: 0 <= i < |types| ==> types[i] == StrType)
    && (PatternIndex(name).Some? ==> args[PatternIndex(name).value].Lit?)
  }

  function BinaryType(op: BinOp, l: Type, r: Type): Option<Type>
  {
    match op
    case Or => if l == BoolType && r == BoolType then Some(BoolType) else None
    case And => if l == BoolType && r == BoolType then Some(BoolType) else None
    case Eq => Some(BoolType)
    case Ne => Some(BoolType)
    case Plus => if l == NumType && r == NumType then Some(NumType) else None
    case Minus => if l == NumType && r == NumType then Some(NumType) else None
    case _ => if l == r && (l == NumType || l == StrType) then Some(BoolType) else None
  }

  /** The static type of a tree, where it has one. */
  function TypeOf(n: Node): Option<Type>
    decreases n, 0
  {
    match n
    case Lit(v) => Some(TypeOfValue(v))
    case Ident(name) => VariableType(name)
    case ListLit(es) => if TypesOf(es).Some? then Some(ListType) else None
    case Call(name, es) =>
      var ts := TypesOf(es);
      if ts.Some? && Fits(name, es, ts.value) then Some(ResultType(name)) else None
    case Unary(op, x) =>
      var t := if op == Not then BoolType else NumType;
      if TypeOf(x) == Some(t) then Some(t) else None
    case Binary(op, l, r) =>
      if TypeOf(l).Some? && TypeOf(r).Some? then BinaryType(op, TypeOf(l).value, TypeOf(r).value) else None
  }

  function TypesOf(ns: seq<Node>): (r: Option<seq<Type>>)
    ensures r.Some? ==> |r.value| == |ns| && forall i :: 0 <= i < |ns| ==> TypeOf(ns[i]) == Some(r.value[i])
    decreases ns, 1
  {
    if ns == [] then Some([]) else
    var init, last := TypesOf(ns[..|ns| - 1]), TypeOf(ns[|ns| - 1]);
    if init.Some? && last.Some? then Some(init.value + [last.value]) else None
  }

  /** A checked, well-typed tree evaluates on every input, to a value of its type. */
  lemma {:induction false} TypeSoundness(lib: Library, inp: Input, n: Node)
    requires Check(lib, n).None? && TypeOf(n).Some?
    ensures EvalF(lib, inp, n).Got? && HasType(EvalF(lib, inp, n).v, TypeOf(n).value)
    decreases n
  {
    match n
    case Lit(_) =>
    case Ident(name) => VariableTypes(inp, name);
    case ListLit(es) => ListSoundness(lib, inp, n, es);
    case Call(name, es) =>
      ListSoundness(lib, inp, n, es);
      CallSoundness(lib, inp, name, es, TypesOf(es).value, EvalListF(lib, inp, es).vs);
    case Unary(_, x) => TypeSoundness(lib, inp, x);
    case Binary(_, l, r) =>
      TypeSoundness(lib, inp, l);
      TypeSoundness(lib, inp, r);
  }

  lemma {:induction false} ListSoundness(lib: Library, inp: Input, n: Node, es: seq<Node>)
    requires n == ListLit(es) || (n.Call? && n.args == es)
    requires Check(lib, n).None? && TypesOf(es).Some?
    ensures var r := EvalListF(lib, inp, es);
            r.All? && |r.vs| == |es| && forall i :: 0 <= i < |es| ==> HasType(r.vs[i], TypesOf(es).value[i])
    decreases n, 0
  {
    CheckAllIsEach(lib, es);
    ListOutcome(lib, inp, es);
    forall i | 0 <= i < |es|
      ensures EvalF(lib, inp, es[i]).Got? && HasType(EvalF(lib, inp, es[i]).v, TypesOf(es).value[i])
    {
      TypeSoundness(lib, inp, es[i]);
    }
  }

  lemma CallSoundness(lib: Library, inp: Input, name: string, args: seq<Node>, types: seq<Type>, vs: seq<Value>)
    requires |args| == |types| == |vs| && Fits(name, args, types)
    requires CheckPattern(lib, name, args).None? && EvalListF(lib, inp, args) == All(vs)
    requires forall i :: 0 <= i < |vs| ==> HasType(vs[i], types[i])
    ensures var r := Apply(lib, inp, name, vs);
            r.Got? && HasType(r.v, ResultType(name))
  {
    ListOutcome(lib, inp, args);
    if PatternIndex(name).Some? {
      var i := PatternIndex(name).value;
      assert EvalF(lib, inp, args[i]) == Got(args[i].v);
      assert HasType(vs[i], types[i]);
    }
  }

  /** A rule of boolean type never records an error. */
  lemma BooleanRuleNeverErrs(lib: Library, inp: Input, n: Node)
    requires Check(lib, n).None? && TypeOf(n) == Some(BoolType)
    ensures AsBool(EvalF(lib, inp, n)).Got?
  {
    TypeSoundness(lib, inp, n);
  }
}
