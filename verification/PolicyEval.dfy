/** Evaluating policy expressions: the language's dynamic semantics as functions of the tree
    and the input, and the evaluator of the source, which carries a cache of compiled
    regular expressions from rule to rule. */
module PolicyEval {
  import opened Options
  import opened Text
  import opened PolicyAst

  /** The libraries the evaluator calls.  A compiled pattern is the test it performs. */
  datatype Library = Library(
    compile: string -> Option<string -> bool>,
    lower: string -> string,
    upper: string -> string,
    foldEq: (string, string) -> bool)

  /** Severities, in their order. */
  const UNKNOWN := 0
  const INFO := 1
  const LOW := 2
  const MEDIUM := 3
  const HIGH := 4
  const CRITICAL := 5

  datatype Finding = Finding(severity: int, ruleId: string, moduleName: string, resource: string)

  datatype Image = Image(reference: string, registry: string, repository: string, tag: string, digest: string)

  datatype Workload = Workload(
    present: bool, privileged: bool, runAsRoot: bool, hostNetwork: bool, hostPid: bool, hostIpc: bool,
    readOnlyRootFs: bool, allowPrivilegeEscalation: bool, usesHostPath: bool, capabilities: seq<string>)

  datatype Attestation = Attestation(signed: bool, predicates: seq<string>)

  datatype Input = Input(
    findings: seq<Finding>, image: Image, workload: Workload, attest: Option<Attestation>,
    licenses: seq<string>, packages: seq<string>)

  datatype EvalError =
    | UnknownIdent(name: string)
    | UnknownFunc(name: string)
    | ArgumentIndex // the source would panic
    | NotBool
    | NotNumber
    | NotString
    | NotList
    | Unordered
    | BadRegexp(pattern: string)

  datatype Outcome = Got(v: Value) | Failed(e: EvalError)

  datatype Outcomes = All(vs: seq<Value>) | FirstFailed(e: EvalError)

  // ----- Values -----

  function Equal(v: Value, o: Value): bool
    decreases v
  {
    match (v, o)
    case (Bool(a), Bool(b)) => a == b
    case (Num(a), Num(b)) => a == b
    case (Str(a), Str(b)) => a == b
    case (List(a), List(b)) => |a| == |b| && forall i :: 0 <= i < |a| ==> Equal(a[i], b[i])
    case _ => false
  }

  lemma {:induction false} EqualIsEquality(v: Value, o: Value)
    ensures Equal(v, o) <==> v == o
    decreases v
  {
    if v.List? && o.List? && |v.vs| == |o.vs| {
      forall i | 0 <= i < |v.vs|
        ensures Equal(v.vs[i], o.vs[i]) <==> v.vs[i] == o.vs[i]
      {
        EqualIsEquality(v.vs[i], o.vs[i]);
      }
      assert v == o <==> forall i :: 0 <= i < |v.vs| ==> v.vs[i] == o.vs[i];
    }
  }

  function Less(v: Value, o: Value): Outcome
  {
    match (v, o)
    case (Num(a), Num(b)) => Got(Bool(a < b))
    case (Str(a), Str(b)) => Got(Bool(TextLess(a, b)))
    case _ => Failed(Unordered)
  }

  function Negated(r: Outcome): Outcome
  {
    match r
    case Got(Bool(b)) => Got(Bool(!b))
    case Got(_) => Failed(NotBool)
    case Failed(e) => Failed(e)
  }

  // ----- Severities and findings -----

  function TrimLeft(s: string): string
  {
    if s != "" && IsSpace(s[0]) then TrimLeft(s[1..]) else s
  }

  function TrimRight(s: string): string
  {
    if s != "" && IsSpace(s[|s| - 1]) then TrimRight(s[..|s| - 1]) else s
  }

  function ParseSeverity(lib: Library, s: string): int
  {
    var t := lib.upper(TrimRight(TrimLeft(s)));
    if t == "CRITICAL" then CRITICAL
    else if t == "HIGH" then HIGH
    else if t == "MEDIUM" then MEDIUM
    else if t == "LOW" then LOW
    else if t == "INFO" then INFO
    else UNKNOWN
  }

  function SeverityName(s: int): string
  {
    if s == CRITICAL then "CRITICAL"
    else if s == HIGH then "HIGH"
    else if s == MEDIUM then "MEDIUM"
    else if s == LOW then "LOW"
    else if s == INFO then "INFO"
    else "UNKNOWN"
  }

  /** How many findings satisfy p. */
  function Count(fs: seq<Finding>, p: Finding -> bool): nat
  {
    if fs == [] then 0 else Count(fs[..|fs| - 1], p) + if p(fs[|fs| - 1]) then 1 else 0
  }

  /** Which findings severity_count and severity_atleast count; an unknown threshold counts
      nothing. */
  function CountedBySeverity(sev: int, atLeast: bool): Finding -> bool
  {
    (f: Finding) => sev != UNKNOWN && (if atLeast then f.severity >= sev else f.severity == sev)
  }

  /** s is the highest severity present, or unknown where there is none above it. */
  ghost predicate IsMaxSeverity(fs: seq<Finding>, s: int)
  {
    && s >= UNKNOWN && (s == UNKNOWN || exists f :: f in fs && f.severity == s)
    && forall f :: f in fs ==> f.severity <= s
  }

  function MaxSeverityF(fs: seq<Finding>): int
  {
    if fs == [] then UNKNOWN else
    var rest := MaxSeverityF(fs[..|fs| - 1]);
    if fs[|fs| - 1].severity > rest then fs[|fs| - 1].severity else rest
  }

  lemma {:induction false} MaxSeverityIsMax(fs: seq<Finding>)
    ensures IsMaxSeverity(fs, MaxSeverityF(fs))
  {
    if fs != [] {
      var init, last := fs[..|fs| - 1], fs[|fs| - 1];
      MaxSeverityIsMax(init);
      assert fs == init + [last];
      assert last in fs;
    }
  }

  method CountSeverity(fs: seq<Finding>, sev: int, atLeast: bool) returns (n: nat)
    ensures n == Count(fs, CountedBySeverity(sev, atLeast))
  {
    if sev == UNKNOWN {
      NothingCounted(fs, CountedBySeverity(sev, atLeast));
      return 0;
    }
    n := 0;
    ghost var p := CountedBySeverity(sev, atLeast);
    for k := 0 to |fs|
      invariant n == Count(fs[..k], p)
    {
      assert fs[..k + 1][..k] == fs[..k];
      if (atLeast && fs[k].severity >= sev) || (!atLeast && fs[k].severity == sev) {
        n := n + 1;
      }
    }
    assert fs[..|fs|] == fs;
  }

  lemma {:induction false} NothingCounted(fs: seq<Finding>, p: Finding -> bool)
    requires forall f :: f in fs ==> !p(f)
    ensures Count(fs, p) == 0
  {
    if fs != [] {
      NothingCounted(fs[..|fs| - 1], p);
    }
  }

  method MaxSeverity(fs: seq<Finding>) returns (name: string)
    ensures exists s :: IsMaxSeverity(fs, s) && name == SeverityName(s)
    ensures name == SeverityName(MaxSeverityF(fs))
  {
    var h := UNKNOWN;
    for k := 0 to |fs|
      invariant h == MaxSeverityF(fs[..k])
    {
      assert fs[..k + 1][..k] == fs[..k];
      if fs[k].severity > h {
        h := fs[k].severity;
      }
    }
    assert fs[..|fs|] == fs;
    MaxSeverityIsMax(fs);
    name := SeverityName(h);
  }

  method ModuleCount(fs: seq<Finding>, name: string) returns (n: nat)
    ensures n == Count(fs, (f: Finding) => f.moduleName == name)
  {
    n := 0;
    ghost var p := (f: Finding) => f.moduleName == name;
    for k := 0 to |fs|
      invariant n == Count(fs[..k], p)
    {
      assert fs[..k + 1][..k] == fs[..k];
      if fs[k].moduleName == name {
        n := n + 1;
      }
    }
    assert fs[..|fs|] == fs;
  }

  method HasRule(fs: seq<Finding>, id: string) returns (b: bool)
    ensures b <==> exists f :: f in fs && f.ruleId == id
  {
    for k := 0 to |fs|
      invariant forall f :: f in fs[..k] ==> f.ruleId != id
    {
      if fs[k].ruleId == id {
        return true;
      }
    }
    assert fs[..|fs|] == fs;
    return false;
  }

  method AnyResource(fs: seq<Finding>, re: string -> bool) returns (b: bool)
    ensures b <==> exists f :: f in fs && re(f.resource)
  {
    for k := 0 to |fs|
      invariant forall f :: f in fs[..k] ==> !re(f.resource)
    {
      if re(fs[k].resource) {
        return true;
      }
    }
    assert fs[..|fs|] == fs;
    return false;
  }

  method ContainsFold(ss: seq<string>, want: string, foldEq: (string, string) -> bool) returns (b: bool)
    ensures b <==> exists s :: s in ss && foldEq(s, want)
  {
    for k := 0 to |ss|
      invariant forall s :: s in ss[..k] ==> !foldEq(s, want)
    {
      if foldEq(ss[k], want) {
        return true;
      }
    }
    assert ss[..|ss|] == ss;
    return false;
  }

  method ContainsText(ss: seq<string>, want: string) returns (b: bool)
    ensures b <==> want in ss
  {
    for k := 0 to |ss|
      invariant want !in ss[..k]
    {
      if ss[k] == want {
        return true;
      }
    }
    assert ss[..|ss|] == ss;
    return false;
  }

  // ----- The vocabulary -----

  function AttestOf(inp: Input): Attestation
  {
    match inp.attest
    case Some(a) => a
    case None => Attestation(false, [])
  }

  /** The bare identifiers and their values. */
  ghost function Variable(inp: Input, name: string): Option<Value>
  {
    var w := inp.workload;
    if name == "signed" then Some(Bool(AttestOf(inp).signed))
    else if name == "digest_pinned" then Some(Bool(inp.image.digest != ""))
    else if name == "registry" then Some(Str(inp.image.registry))
    else if name == "repository" then Some(Str(inp.image.repository))
    else if name == "tag" then Some(Str(inp.image.tag))
    else if name == "digest" then Some(Str(inp.image.digest))
    else if name == "image_ref" then Some(Str(inp.image.reference))
    else if name == "finding_count" then Some(Num(|inp.findings| as real))
    else if name == "max_severity" then Some(Str(SeverityName(MaxSeverityF(inp.findings))))
    else if name == "workload_present" then Some(Bool(w.present))
    else if name == "privileged" then Some(Bool(w.privileged))
    else if name == "runs_as_root" then Some(Bool(w.runAsRoot))
    else if name == "host_network" then Some(Bool(w.hostNetwork))
    else if name == "host_pid" then Some(Bool(w.hostPid))
    else if name == "host_ipc" then Some(Bool(w.hostIpc))
    else if name == "read_only_root_fs" then Some(Bool(w.readOnlyRootFs))
    else if name == "allow_privilege_escalation" then Some(Bool(w.allowPrivilegeEscalation))
    else if name == "uses_host_path" then Some(Bool(w.usesHostPath))
    else None
  }

  /** The arity of a function, where the name is one. */
  function Arity(name: string): Option<nat>
  {
    if name == "in" || name == "matches" || name == "startswith" || name == "endswith" then Some(2)
    else if name == "severity_count" || name == "severity_atleast" || name == "has_rule" || name == "module_count"
            || name == "resource_matches" || name == "verified" || name == "has_license" || name == "has_package"
            || name == "has_capability" || name == "lower" then Some(1)
    else None
  }

  /** Argument i as a string. */
  function StrArg(args: seq<Value>, i: nat): Outcome
  {
    if i >= |args| then Failed(ArgumentIndex)
    else if args[i].Str? then Got(args[i])
    else Failed(NotString)
  }

  /** A function of one string argument. */
  ghost function ApplyToText(lib: Library, inp: Input, name: string, s: string): Outcome
  {
    if name == "severity_count" then
      Got(Num(Count(inp.findings, CountedBySeverity(ParseSeverity(lib, s), false)) as real))
    else if name == "severity_atleast" then
      Got(Num(Count(inp.findings, CountedBySeverity(ParseSeverity(lib, s), true)) as real))
    else if name == "has_rule" then Got(Bool(exists f :: f in inp.findings && f.ruleId == s))
    else if name == "module_count" then Got(Num(Count(inp.findings, (f: Finding) => f.moduleName == s) as real))
    else if name == "verified" then Got(Bool(s in AttestOf(inp).predicates))
    else if name == "has_license" then Got(Bool(exists l :: l in inp.licenses && lib.foldEq(l, s)))
    else if name == "has_package" then Got(Bool(s in inp.packages))
    else if name == "has_capability" then Got(Bool(exists c :: c in inp.workload.capabilities && lib.foldEq(c, s)))
    else if name == "lower" then Got(Str(lib.lower(s)))
    else if name == "resource_matches" then
      if lib.compile(s) == None then Failed(BadRegexp(s))
      else Got(Bool(exists f :: f in inp.findings && lib.compile(s).value(f.resource)))
    else Failed(UnknownFunc(name))
  }

  /** A function of two string arguments. */
  ghost function ApplyToTexts(lib: Library, name: string, s: string, t: string): Outcome
  {
    if name == "matches" then
      if lib.compile(t) == None then Failed(BadRegexp(t)) else Got(Bool(lib.compile(t).value(s)))
    else if name == "startswith" then Got(Bool(t <= s))
    else if name == "endswith" then Got(Bool(|t| <= |s| && s[|s| - |t|..] == t))
    else Failed(UnknownFunc(name))
  }

  ghost function Apply(lib: Library, inp: Input, name: string, args: seq<Value>): Outcome
  {
    if Arity(name) == None then Failed(UnknownFunc(name))
    else if name == "in" then
      if |args| < 2 then Failed(ArgumentIndex)
      else if !args[1].List? then Failed(NotList)
      else Got(Bool(args[0] in args[1].vs))
    else if StrArg(args, 0).Failed? then StrArg(args, 0)
    else if Arity(name) == Some(1) then ApplyToText(lib, inp, name, args[0].s)
    else if StrArg(args, 1).Failed? then StrArg(args, 1)
    else ApplyToTexts(lib, name, args[0].s, args[1].s)
  }

  // ----- Meaning of an expression -----

  function UnaryF(op: UnOp, v: Value): Outcome
  {
    match op
    case Not => if v.Bool? then Got(Bool(!v.b)) else Failed(NotBool)
    case Neg => if v.Num? then Got(Num(-v.n)) else Failed(NotNumber)
  }

  /** The operators that evaluate both sides. */
  function StrictF(op: BinOp, l: Value, r: Value): Outcome
    requires op != And && op != Or
  {
    match op
    case Eq => Got(Bool(l == r))
    case Ne => Got(Bool(l != r))
    case Lt => Less(l, r)
    case Gt => Less(r, l)
    case Le => Negated(Less(r, l))
    case Ge => Negated(Less(l, r))
    case Plus => if l.Num? && r.Num? then Got(Num(l.n + r.n)) else Failed(NotNumber)
    case Minus => if l.Num? && r.Num? then Got(Num(l.n - r.n)) else Failed(NotNumber)
  }

  /** Whether the left value already decides && or ||. */
  predicate Decided(op: BinOp, l: Value)
  {
    l.Bool? && ((op == And && !l.b) || (op == Or && l.b))
  }

  function AsBool(r: Outcome): Outcome
  {
    if r.Got? && !r.v.Bool? then Failed(NotBool) else r
  }

  /** The outcome of the left side means that the right side is not evaluated. */
  predicate Skips(op: BinOp, l: Outcome)
  {
    l.Failed? || ((op == And || op == Or) && (!l.v.Bool? || Decided(op, l.v)))
  }

  /** The outcome of an infix operator from those of its sides. */
  function Combine(op: BinOp, l: Outcome, r: Outcome): Outcome
  {
    if op == And || op == Or then (if Skips(op, l) then AsBool(l) else AsBool(r))
    else if l.Failed? then l
    else if r.Failed? then r
    else StrictF(op, l.v, r.v)
  }

  /** The value of n, with every pattern compiled afresh. */
  ghost function EvalF(lib: Library, inp: Input, n: Node): Outcome
    decreases n, 0
  {
    match n
    case Lit(v) => Got(v)
    case ListLit(es) =>
      (match EvalListF(lib, inp, es)
       case All(vs) => Got(List(vs))
       case FirstFailed(e) => Failed(e))
    case Ident(name) =>
      (match Variable(inp, name)
       case Some(v) => Got(v)
       case None => Failed(UnknownIdent(name)))
    case Call(name, es) =>
      if Arity(name) == None then Failed(UnknownFunc(name)) else
      (match EvalListF(lib, inp, es)
       case All(vs) => Apply(lib, inp, name, vs)
       case FirstFailed(e) => Failed(e))
    case Unary(op, x) =>
      (match EvalF(lib, inp, x)
       case Got(v) => UnaryF(op, v)
       case Failed(e) => Failed(e))
    case Binary(op, l, r) => Combine(op, EvalF(lib, inp, l), EvalF(lib, inp, r))
  }

  /** The values of a list of expressions, or the leftmost failure. */
  ghost function EvalListF(lib: Library, inp: Input, ns: seq<Node>): Outcomes
    decreases ns, 1
  {
    if ns == [] then All([]) else
    match EvalListF(lib, inp, ns[..|ns| - 1])
    case FirstFailed(e) => FirstFailed(e)
    case All(vs) =>
      (match EvalF(lib, inp, ns[|ns| - 1])
       case Failed(e) => FirstFailed(e)
       case Got(v) => All(vs + [v]))
  }

  lemma {:induction false} FailureStays(lib: Library, inp: Input, ns: seq<Node>, k: nat)
    requires k <= |ns| && EvalListF(lib, inp, ns[..k]).FirstFailed?
    ensures EvalListF(lib, inp, ns) == EvalListF(lib, inp, ns[..k])
    decreases |ns|
  {
    if k == |ns| {
      assert ns[..k] == ns;
    } else {
      assert ns[..|ns| - 1][..k] == ns[..k];
      FailureStays(lib, inp, ns[..|ns| - 1], k);
    }
  }

  // ----- The patterns an evaluation compiles -----

  ghost function Compiled(lib: Library, pattern: string): set<string>
  {
    if lib.compile(pattern).Some? then {pattern} else {}
  }

  ghost function ApplyTouches(lib: Library, name: string, args: seq<Value>): set<string>
  {
    if name == "resource_matches" && StrArg(args, 0).Got? then Compiled(lib, args[0].s)
    else if name == "matches" && StrArg(args, 0).Got? && StrArg(args, 1).Got? then Compiled(lib, args[1].s)
    else {}
  }

  /** The good patterns reached when n is evaluated: those short-circuiting skips, and those
      behind an error, are not among them. */
  ghost function Touched(lib: Library, inp: Input, n: Node): set<string>
    decreases n, 0
  {
    match n
    case Lit(_) => {}
    case Ident(_) => {}
    case ListLit(es) => TouchedList(lib, inp, es)
    case Call(name, es) =>
      if Arity(name) == None then {} else
      TouchedList(lib, inp, es) +
      (match EvalListF(lib, inp, es)
       case All(vs) => ApplyTouches(lib, name, vs)
       case FirstFailed(_) => {})
    case Unary(_, x) => Touched(lib, inp, x)
    case Binary(op, l, r) =>
      Touched(lib, inp, l) + (if Skips(op, EvalF(lib, inp, l)) then {} else Touched(lib, inp, r))
  }

  ghost function TouchedList(lib: Library, inp: Input, ns: seq<Node>): set<string>
    decreases ns, 1
  {
    if ns == [] then {} else
    var init := ns[..|ns| - 1];
    TouchedList(lib, inp, init) +
    (if EvalListF(lib, inp, init).All? then Touched(lib, inp, ns[|ns| - 1]) else {})
  }

  lemma {:induction false} NoneTouchedAfterFailure(lib: Library, inp: Input, ns: seq<Node>, k: nat)
    requires k <= |ns| && EvalListF(lib, inp, ns[..k]).FirstFailed?
    ensures TouchedList(lib, inp, ns) == TouchedList(lib, inp, ns[..k])
    decreases |ns|
  {
    if k == |ns| {
      assert ns[..k] == ns;
    } else {
      var init := ns[..|ns| - 1];
      assert init[..k] == ns[..k];
      FailureStays(lib, inp, init, k);
      NoneTouchedAfterFailure(lib, inp, init, k);
    }
  }

  lemma OneMoreNode(lib: Library, inp: Input, init: seq<Node>, n: Node, ns: seq<Node>)
    requires ns == init + [n] && EvalListF(lib, inp, init).All?
    ensures EvalListF(lib, inp, ns) == (
      var r := EvalF(lib, inp, n);
      if r.Got? then All(EvalListF(lib, inp, init).vs + [r.v]) else FirstFailed(r.e))
    ensures TouchedList(lib, inp, ns) == TouchedList(lib, inp, init) + Touched(lib, inp, n)
  {
    assert ns[..|ns| - 1] == init;
  }

  // ----- The evaluator -----

  /** The environment of one policy evaluation. */
  class EvalEnv {
    const lib: Library
    const inp: Input
    var regexp: map<string, string -> bool>

    constructor (lib: Library, inp: Input)
      ensures this.lib == lib && this.inp == inp && Faithful() && regexp == map[]
    {
      this.lib := lib;
      this.inp := inp;
      regexp := map[];
    }

    /** Every cached entry is what compiling its pattern gives. */
    ghost predicate Faithful()
      reads this
    {
      forall p :: p in regexp ==> lib.compile(p) == Some(regexp[p])
    }

    method CompileRegexp(pattern: string) returns (re: Option<string -> bool>)
      requires Faithful()
      modifies this
      ensures Faithful() && regexp.Keys == old(regexp.Keys) + Compiled(lib, pattern)
      ensures re == lib.compile(pattern)
    {
      if pattern in regexp {
        return Some(regexp[pattern]);
      }
      re := lib.compile(pattern);
      if re.Some? {
        regexp := regexp[pattern := re.value];
      }
    }

    method Eval(n: Node) returns (r: Outcome)
      requires Faithful()
      modifies this
      ensures Faithful() && regexp.Keys == old(regexp.Keys) + Touched(lib, inp, n)
      ensures r == EvalF(lib, inp, n)
      decreases n, 0
    {
      match n {
        case Lit(v) =>
          r := Got(v);
        case Ident(name) =>
          r := LookUp(name);
        case ListLit(es) =>
          var vs := EvalAll(es);
          r := if vs.All? then Got(List(vs.vs)) else Failed(vs.e);
        case Call(name, es) =>
          if Arity(name).None? {
            return Failed(UnknownFunc(name));
          }
          var vs := EvalAll(es);
          if vs.FirstFailed? {
            return Failed(vs.e);
          }
          r := CallBuiltin(name, vs.vs);
        case Unary(op, x) =>
          var v := Eval(x);
          if v.Failed? {
            return v;
          }
          r := UnaryF(op, v.v);
        case Binary(op, l, rt) =>
          if op == And || op == Or {
            r := EvalLogical(op, l, rt);
          } else {
            r := EvalBothSides(op, l, rt);
          }
      }
    }

    method EvalBothSides(op: BinOp, l: Node, rt: Node) returns (r: Outcome)
      requires Faithful() && op != And && op != Or
      modifies this
      ensures Faithful()
      ensures regexp.Keys == old(regexp.Keys) + Touched(lib, inp, l) +
                             (if Skips(op, EvalF(lib, inp, l)) then {} else Touched(lib, inp, rt))
      ensures r == Combine(op, EvalF(lib, inp, l), EvalF(lib, inp, rt))
      decreases Binary(op, l, rt), 0, 0
    {
      var lv := Eval(l);
      if lv.Failed? {
        return lv;
      }
      var rv := Eval(rt);
      if rv.Failed? {
        return rv;
      }
      r := EvalStrict(op, lv.v, rv.v);
    }

    method EvalLogical(op: BinOp, l: Node, rt: Node) returns (r: Outcome)
      requires Faithful() && (op == And || op == Or)
      modifies this
      ensures Faithful()
      ensures regexp.Keys == old(regexp.Keys) + Touched(lib, inp, l) +
                             (if Skips(op, EvalF(lib, inp, l)) then {} else Touched(lib, inp, rt))
      ensures r == Combine(op, EvalF(lib, inp, l), EvalF(lib, inp, rt))
      decreases Binary(op, l, rt), 0, 0
    {
      var lv := Eval(l);
      if lv.Failed? {
        return lv;
      }
      if !lv.v.Bool? {
        return Failed(NotBool);
      }
      if op == And && !lv.v.b {
        return Got(Bool(false));
      }
      if op == Or && lv.v.b {
        return Got(Bool(true));
      }
      var rv := Eval(rt);
      if rv.Failed? {
        return rv;
      }
      if !rv.v.Bool? {
        return Failed(NotBool);
      }
      r := Got(Bool(rv.v.b));
    }

    method EvalAll(ns: seq<Node>) returns (r: Outcomes)
      requires Faithful()
      modifies this
      ensures Faithful() && regexp.Keys == old(regexp.Keys) + TouchedList(lib, inp, ns)
      ensures r == EvalListF(lib, inp, ns)
      decreases ns, 1
    {
      var vs: seq<Value> := [];
      for k := 0 to |ns|
        invariant Faithful() && regexp.Keys == old(regexp.Keys) + TouchedList(lib, inp, ns[..k])
        invariant EvalListF(lib, inp, ns[..k]) == All(vs)
      {
        var v := Eval(ns[k]);
        OneMoreNode(lib, inp, ns[..k], ns[k], ns[..k + 1]);
        if v.Failed? {
          FailureStays(lib, inp, ns, k + 1);
          NoneTouchedAfterFailure(lib, inp, ns, k + 1);
          return FirstFailed(v.e);
        }
        vs := vs + [v.v];
      }
      assert ns[..|ns|] == ns;
      r := All(vs);
    }

    method LookUp(name: string) returns (r: Outcome)
      ensures r == EvalF(lib, inp, Ident(name))
    {
      var attest := if inp.attest.Some? then inp.attest.value else Attestation(false, []);
      var w := inp.workload;
      match name {
        case "signed" => r := Got(Bool(attest.signed));
        case "digest_pinned" => r := Got(Bool(inp.image.digest != ""));
        case "registry" => r := Got(Str(inp.image.registry));
        case "repository" => r := Got(Str(inp.image.repository));
        case "tag" => r := Got(Str(inp.image.tag));
        case "digest" => r := Got(Str(inp.image.digest));
        case "image_ref" => r := Got(Str(inp.image.reference));
        case "finding_count" => r := Got(Num(|inp.findings| as real));
        case "max_severity" =>
          var s := MaxSeverity(inp.findings);
          r := Got(Str(s));
        case "workload_present" => r := Got(Bool(w.present));
        case "privileged" => r := Got(Bool(w.privileged));
        case "runs_as_root" => r := Got(Bool(w.runAsRoot));
        case "host_network" => r := Got(Bool(w.hostNetwork));
        case "host_pid" => r := Got(Bool(w.hostPid));
        case "host_ipc" => r := Got(Bool(w.hostIpc));
        case "read_only_root_fs" => r := Got(Bool(w.readOnlyRootFs));
        case "allow_privilege_escalation" => r := Got(Bool(w.allowPrivilegeEscalation));
        case "uses_host_path" => r := Got(Bool(w.usesHostPath));
        case _ => r := Failed(UnknownIdent(name));
      }
    }

    /** <, <=, > and >= through Less; == and != through Equal; + and - on numbers. */
    method EvalStrict(op: BinOp, l: Value, rt: Value) returns (r: Outcome)
      requires op != And && op != Or
      ensures r == StrictF(op, l, rt)
    {
      EqualIsEquality(l, rt);
      match op {
        case Eq => r := Got(Bool(Equal(l, rt)));
        case Ne => r := Got(Bool(!Equal(l, rt)));
        case Lt => r := Less(l, rt);
        case Gt => r := Less(rt, l);
        case Le => r := Less(rt, l); if r.Got? { r := Got(Bool(!r.v.b)); }
        case Ge => r := Less(l, rt); if r.Got? { r := Got(Bool(!r.v.b)); }
        case Plus => r := if l.Num? && rt.Num? then Got(Num(l.n + rt.n)) else Failed(NotNumber);
        case Minus => r := if l.Num? && rt.Num? then Got(Num(l.n - rt.n)) else Failed(NotNumber);
      }
    }

    /** The body of the builtin. */
    method CallBuiltin(name: string, args: seq<Value>) returns (r: Outcome)
      requires Faithful() && Arity(name).Some?
      modifies this
      ensures Faithful() && regexp.Keys == old(regexp.Keys) + ApplyTouches(lib, name, args)
      ensures r == Apply(lib, inp, name, args)
    {
      if name == "in" {
        if |args| < 2 {
          return Failed(ArgumentIndex);
        }
        r := ListContains(args[1], args[0]);
        return;
      }
      var first := StrArg(args, 0);
      if first.Failed? {
        return first;
      }
      if Arity(name) == Some(1) {
        if name == "resource_matches" {
          r := ResourceMatches(args[0].s);
        } else {
          r := CallOnText(name, args[0].s);
        }
        return;
      }
      var second := StrArg(args, 1);
      if second.Failed? {
        return second;
      }
      r := CallOnTexts(name, args[0].s, args[1].s);
    }

    method ListContains(l: Value, x: Value) returns (r: Outcome)
      ensures r == if l.List? then Got(Bool(x in l.vs)) else Failed(NotList)
    {
      if !l.List? {
        return Failed(NotList);
      }
      for k := 0 to |l.vs|
        invariant x !in l.vs[..k]
      {
        EqualIsEquality(l.vs[k], x);
        if Equal(l.vs[k], x) {
          return Got(Bool(true));
        }
      }
      assert l.vs[..|l.vs|] == l.vs;
      r := Got(Bool(false));
    }

    method ResourceMatches(pattern: string) returns (r: Outcome)
      requires Faithful()
      modifies this
      ensures Faithful() && regexp.Keys == old(regexp.Keys) + Compiled(lib, pattern)
      ensures r == ApplyToText(lib, inp, "resource_matches", pattern)
    {
      var re := CompileRegexp(pattern);
      if re.None? {
        return Failed(BadRegexp(pattern));
      }
      var b := AnyResource(inp.findings, re.value);
      r := Got(Bool(b));
    }

    method CallOnText(name: string, s: string) returns (r: Outcome)
      requires Arity(name) == Some(1) && name != "resource_matches"
      ensures r == ApplyToText(lib, inp, name, s)
    {
      if name == "severity_count" || name == "severity_atleast" {
        var n := CountSeverity(inp.findings, ParseSeverity(lib, s), name == "severity_atleast");
        r := Got(Num(n as real));
      } else if name == "has_rule" {
        var b := HasRule(inp.findings, s);
        r := Got(Bool(b));
      } else if name == "module_count" {
        var n := ModuleCount(inp.findings, s);
        r := Got(Num(n as real));
      } else if name == "verified" {
        var b := ContainsText(AttestOf(inp).predicates, s);
        r := Got(Bool(b));
      } else if name == "has_license" {
        var b := ContainsFold(inp.licenses, s, lib.foldEq);
        r := Got(Bool(b));
      } else if name == "has_package" {
        var b := ContainsText(inp.packages, s);
        r := Got(Bool(b));
      } else if name == "has_capability" {
        var b := ContainsFold(inp.workload.capabilities, s, lib.foldEq);
        r := Got(Bool(b));
      } else {
        r := Got(Str(lib.lower(s)));
      }
    }

    method CallOnTexts(name: string, s: string, t: string) returns (r: Outcome)
      requires Faithful() && Arity(name) == Some(2) && name != "in"
      modifies this
      ensures Faithful() && regexp.Keys == old(regexp.Keys) + (if name == "matches" then Compiled(lib, t) else {})
      ensures r == ApplyToTexts(lib, name, s, t)
    {
      if name == "matches" {
        var re := CompileRegexp(t);
        r := if re.None? then Failed(BadRegexp(t)) else Got(Bool(re.value(s)));
      } else if name == "startswith" {
        r := Got(Bool(t <= s));
      } else {
        r := Got(Bool(|t| <= |s| && s[|s| - |t|..] == t));
      }
    }
  }
}
