/** From a policy document to a verdict: compiling the rules, evaluating them over one shared
    environment, honouring waivers and deciding. */
module PolicyVerdict {
  import opened Lists
  import opened Options
  import opened PolicyAst
  import opened PolicyLexer
  import opened PolicyText
  import opened PolicyEval
  import opened PolicyTypes

  datatype Effect = DenyEffect | WarnEffect | AllowEffect

  datatype Rule = Rule(id: string, matchExpr: string, effect: Effect)

  /** A waiver.  `expires` is the parsed expiry; 0, the zero time, where it does not parse. */
  datatype Waiver = Waiver(ruleId: string, expires: int, registry: string, imagePattern: string)

  datatype Policy = Policy(audit: bool, rules: seq<Rule>, waivers: seq<Waiver>)

  datatype CompiledRule = CompiledRule(rule: Rule, ast: Node)

  datatype RuleResult = RuleResult(
    id: string, effect: Effect, matched: bool, waived: bool, error: Option<EvalError>)

  /** Verdicts, weakest first. */
  datatype Decision = Allow | Warn | Deny
  {
    function Strength(): nat
    {
      match this
      case Allow => 0
      case Warn => 1
      case Deny => 2
    }
  }

  datatype Result = Result(audit: bool, rules: seq<RuleResult>, decision: Decision)

  // ----- Compiling -----

  /** The tree of a rule, where its text parses and passes the check. */
  function CompileRule(lang: Lang, lib: Library, r: Rule): Option<Node>
  {
    match ParseExprF(lang, r.matchExpr)
    case Err(_) => None
    case Ok(n) => if Check(lib, n).Some? then None else Some(n)
  }

  datatype Compilation = Ready(rules: seq<CompiledRule>) | Rejected(ids: seq<string>)

  /** The rules that do not compile, in order. */
  function BadRules(lang: Lang, lib: Library, rules: seq<Rule>): seq<string>
    decreases |rules|
  {
    if rules == [] then [] else
    var last := rules[|rules| - 1];
    BadRules(lang, lib, rules[..|rules| - 1]) + (if CompileRule(lang, lib, last).None? then [last.id] else [])
  }

  /** The rules that do, with their trees. */
  function GoodRules(lang: Lang, lib: Library, rules: seq<Rule>): seq<CompiledRule>
    decreases |rules|
  {
    if rules == [] then [] else
    var last := rules[|rules| - 1];
    var ast := CompileRule(lang, lib, last);
    GoodRules(lang, lib, rules[..|rules| - 1]) + (if ast.Some? then [CompiledRule(last, ast.value)] else [])
  }

  lemma {:induction false} NoBadRules(lang: Lang, lib: Library, rules: seq<Rule>)
    ensures BadRules(lang, lib, rules) == [] <==>
            forall i :: 0 <= i < |rules| ==> CompileRule(lang, lib, rules[i]).Some?
    decreases |rules|
  {
    if rules != [] {
      var init, last := rules[..|rules| - 1], rules[|rules| - 1];
      NoBadRules(lang, lib, init);
      EachOf(init, last, rules, (r: Rule) => CompileRule(lang, lib, r).Some?);
    }
  }

  lemma EachOf(init: seq<Rule>, last: Rule, rules: seq<Rule>, p: Rule -> bool)
    requires rules == init + [last]
    ensures (forall i :: 0 <= i < |rules| ==> p(rules[i])) <==> (forall i :: 0 <= i < |init| ==> p(init[i])) && p(last)
  {
    assert forall i :: 0 <= i < |init| ==> rules[i] == init[i];
    assert rules[|init|] == last;
  }

  lemma {:induction false} AllGood(lang: Lang, lib: Library, rules: seq<Rule>)
    requires BadRules(lang, lib, rules) == []
    ensures var good := GoodRules(lang, lib, rules);
            |good| == |rules| && forall i :: 0 <= i < |rules| ==> IsCompiled(lang, lib, rules[i], good[i])
    decreases |rules|
  {
    if rules != [] {
      AllGood(lang, lib, rules[..|rules| - 1]);
    }
  }

  lemma OneMoreRule(lang: Lang, lib: Library, init: seq<Rule>, r: Rule, rules: seq<Rule>)
    requires rules == init + [r]
    ensures var ast := CompileRule(lang, lib, r);
            && BadRules(lang, lib, rules) == BadRules(lang, lib, init) + (if ast.None? then [r.id] else [])
            && GoodRules(lang, lib, rules) ==
               GoodRules(lang, lib, init) + (if ast.Some? then [CompiledRule(r, ast.value)] else [])
  {
    assert rules[..|rules| - 1] == init;
  }

  predicate IsCompiled(lang: Lang, lib: Library, r: Rule, c: CompiledRule)
  {
    c.rule == r && CompileRule(lang, lib, r) == Some(c.ast)
  }

  /** Compile: all rules or, in one message, every rule that does not compile. */
  method Compile(lang: Lang, lib: Library, p: Policy) returns (c: Compilation)
    ensures c.Rejected? <==> exists i :: 0 <= i < |p.rules| && CompileRule(lang, lib, p.rules[i]).None?
    ensures c.Rejected? ==> c.ids == BadRules(lang, lib, p.rules)
    ensures c.Ready? ==> |c.rules| == |p.rules|
    ensures c.Ready? ==> forall i :: 0 <= i < |p.rules| ==> IsCompiled(lang, lib, p.rules[i], c.rules[i])
  {
    var compiled: seq<CompiledRule> := [];
    var errs: seq<string> := [];
    for k := 0 to |p.rules|
      invariant errs == BadRules(lang, lib, p.rules[..k])
      invariant compiled == GoodRules(lang, lib, p.rules[..k])
    {
      var r := p.rules[k];
      OneMoreRule(lang, lib, p.rules[..k], r, p.rules[..k + 1]);
      var parsed := ParseExpr(lang, r.matchExpr);
      if parsed.Err? {
        errs := errs + [r.id];
        continue;
      }
      if Check(lib, parsed.node).Some? {
        errs := errs + [r.id];
        continue;
      }
      compiled := compiled + [CompiledRule(r, parsed.node)];
    }
    assert p.rules[..|p.rules|] == p.rules;
    NoBadRules(lang, lib, p.rules);
    if errs == [] {
      AllGood(lang, lib, p.rules);
    }
    c := if errs != [] then Rejected(errs) else Ready(compiled);
  }

  // ----- Evaluating the rules -----

  /** The outcome of one rule on its own, with nothing cached. */
  ghost function RuleOutcome(lib: Library, inp: Input, c: CompiledRule): RuleResult
  {
    match AsBool(EvalF(lib, inp, c.ast))
    case Failed(e) => RuleResult(c.rule.id, c.rule.effect, false, false, Some(e))
    case Got(v) => RuleResult(c.rule.id, c.rule.effect, v == Bool(true), false, None)
  }

  ghost function Outcomes(lib: Library, inp: Input, rules: seq<CompiledRule>): (rs: seq<RuleResult>)
    ensures |rs| == |rules|
  {
    seq(|rules|, i requires 0 <= i < |rules| => RuleOutcome(lib, inp, rules[i]))
  }

  /** The rule loop of Evaluate: one environment, hence one cache, for all rules. */
  method RunRules(lib: Library, inp: Input, rules: seq<CompiledRule>) returns (a: array<RuleResult>)
    ensures fresh(a) && a[..] == Outcomes(lib, inp, rules)
  {
    var env := new EvalEnv(lib, inp);
    var rs: seq<RuleResult> := [];
    for k := 0 to |rules|
      invariant fresh(env) && env.Faithful()
      invariant rs == Outcomes(lib, inp, rules)[..k]
    {
      var c := rules[k];
      var v := env.Eval(c.ast);
      var rr := RuleResult(c.rule.id, c.rule.effect, false, false, None);
      if v.Failed? {
        rr := rr.(error := Some(v.e));
      } else if !v.v.Bool? {
        rr := rr.(error := Some(NotBool));
      } else {
        rr := rr.(matched := v.v.b);
      }
      rs := rs + [rr];
    }
    a := new RuleResult[|rs|](i requires 0 <= i < |rs| => rs[i]);
    assert a[..] == rs;
  }

  // ----- Waivers -----

  /** The waiver is unexpired: an unset clock or an unset expiry never is. */
  predicate Active(w: Waiver, now: int)
  {
    now != 0 && w.expires != 0 && now < w.expires
  }

  predicate InScope(lib: Library, w: Waiver, inp: Input)
  {
    && (w.registry == "" || w.registry == inp.image.registry)
    && (w.imagePattern == "" ||
        (lib.compile(w.imagePattern).Some? && lib.compile(w.imagePattern).value(inp.image.reference)))
  }

  predicate Covers(lib: Library, w: Waiver, inp: Input, now: int, id: string)
  {
    w.ruleId == id && Active(w, now) && InScope(lib, w, inp)
  }

  predicate Waivable(rr: RuleResult)
  {
    rr.matched && rr.effect != AllowEffect
  }

  ghost function Waive(lib: Library, ws: seq<Waiver>, inp: Input, now: int, rr: RuleResult): RuleResult
  {
    if Waivable(rr) && exists w :: w in ws && Covers(lib, w, inp, now, rr.id) then rr.(waived := true) else rr
  }

  ghost function WaiveAll(lib: Library, ws: seq<Waiver>, inp: Input, now: int, rs: seq<RuleResult>): (out: seq<RuleResult>)
    ensures |out| == |rs|
  {
    seq(|rs|, i requires 0 <= i < |rs| => Waive(lib, ws, inp, now, rs[i]))
  }

  /** Waivers.apply: marks the waived outcomes where they stand. */
  method ApplyWaivers(lib: Library, ws: seq<Waiver>, inp: Input, now: int, a: array<RuleResult>)
    modifies a
    ensures a[..] == WaiveAll(lib, ws, inp, now, old(a[..]))
  {
    for i := 0 to a.Length
      invariant a[i..] == old(a[..])[i..]
      invariant a[..i] == WaiveAll(lib, ws, inp, now, old(a[..]))[..i]
    {
      assert a[i] == a[i..][0] == old(a[..])[i];
      if Waivable(a[i]) {
        var covered := AnyCovers(lib, ws, inp, now, a[i].id);
        if covered {
          a[i] := a[i].(waived := true);
        }
      }
      assert a[i] == Waive(lib, ws, inp, now, old(a[..])[i]);
      assert a[i + 1..] == old(a[..])[i + 1..];
    }
  }

  method AnyCovers(lib: Library, ws: seq<Waiver>, inp: Input, now: int, id: string) returns (b: bool)
    ensures b <==> exists w :: w in ws && Covers(lib, w, inp, now, id)
  {
    for k := 0 to |ws|
      invariant forall w :: w in ws[..k] ==> !Covers(lib, w, inp, now, id)
    {
      if ws[k].ruleId != id || !Active(ws[k], now) || !InScope(lib, ws[k], inp) {
        continue;
      }
      assert Covers(lib, ws[k], inp, now, id);
      return true;
    }
    assert ws[..|ws|] == ws;
    b := false;
  }

  // ----- The decision -----

  ghost predicate Errored(rs: seq<RuleResult>)
  {
    exists r :: r in rs && !r.waived && r.error.Some?
  }

  ghost predicate Fired(rs: seq<RuleResult>, e: Effect)
  {
    exists r :: r in rs && !r.waived && r.error.None? && r.matched && r.effect == e
  }

  /** The strongest verdict the outcomes call for: an unevaluable policy fails closed before
      an allow rule can carve anything out, an allow rule overrides denials but not warnings,
      and auditing turns a denial into a warning. */
  ghost function Verdict(audit: bool, rs: seq<RuleResult>): Decision
  {
    var full :=
      if Errored(rs) || (Fired(rs, DenyEffect) && !Fired(rs, AllowEffect)) then Deny
      else if Fired(rs, WarnEffect) then Warn
      else Allow;
    if audit && full == Deny then Warn else full
  }

  method Decide(audit: bool, rs: seq<RuleResult>) returns (d: Decision)
    ensures d == Verdict(audit, rs)
  {
    var enforce := !audit;
    var hadError, deniedByRule, allowOverride, warned := false, false, false, false;
    for k := 0 to |rs|
      invariant hadError == Errored(rs[..k])
      invariant deniedByRule == Fired(rs[..k], DenyEffect)
      invariant allowOverride == Fired(rs[..k], AllowEffect)
      invariant warned == Fired(rs[..k], WarnEffect)
    {
      var rr := rs[k];
      OneMoreOutcome(rs[..k], rr, rs[..k + 1]);
      if rr.waived {
        continue;
      }
      if rr.error.Some? {
        hadError := true;
        continue;
      }
      if !rr.matched {
        continue;
      }
      match rr.effect {
        case DenyEffect => deniedByRule := true;
        case AllowEffect => allowOverride := true;
        case WarnEffect => warned := true;
      }
    }
    assert rs[..|rs|] == rs;
    if hadError {
      return if enforce then Deny else Warn;
    }
    if allowOverride {
      return if warned then Warn else Allow;
    }
    if enforce && deniedByRule {
      return Deny;
    }
    if warned || deniedByRule {
      return Warn;
    }
    return Allow;
  }

  lemma OneMoreOutcome(rs: seq<RuleResult>, r: RuleResult, more: seq<RuleResult>)
    requires more == rs + [r]
    ensures Errored(more) <==> Errored(rs) || (!r.waived && r.error.Some?)
    ensures forall e :: Fired(more, e) <==>
      Fired(rs, e) || (!r.waived && r.error.None? && r.matched && r.effect == e)
  {
    assert r in more;
    assert forall x :: x in more <==> x in rs || x == r;
  }

  ghost function EvaluateF(lib: Library, audit: bool, rules: seq<CompiledRule>, ws: seq<Waiver>,
      inp: Input, now: int): Result
  {
    var rs := WaiveAll(lib, ws, inp, now, Outcomes(lib, inp, rules));
    Result(audit, rs, Verdict(audit, rs))
  }

  /** Engine.Evaluate.  Its result is the one of evaluating every rule on its own: the cache
      the rules share changes nothing. */
  method Evaluate(lib: Library, audit: bool, rules: seq<CompiledRule>, ws: seq<Waiver>, inp: Input, now: int)
      returns (res: Result)
    ensures res == EvaluateF(lib, audit, rules, ws, inp, now)
  {
    var a := RunRules(lib, inp, rules);
    ApplyWaivers(lib, ws, inp, now, a);
    var d := Decide(audit, a[..]);
    res := Result(audit, a[..], d);
  }

  // ----- Order of rules -----

  lemma {:induction false} MapKeepsMultiset<S, T>(a: seq<S>, b: seq<S>, fa: seq<T>, fb: seq<T>, f: S -> T)
    requires multiset(a) == multiset(b) && |fa| == |a| && |fb| == |b|
    requires forall i :: 0 <= i < |a| ==> fa[i] == f(a[i])
    requires forall i :: 0 <= i < |b| ==> fb[i] == f(b[i])
    ensures multiset(fa) == multiset(fb)
    decreases |a|
  {
    if a == [] {
      assert |multiset(b)| == 0;
    } else {
      var j := Find(a[0], a, b);
      var b', fb' := Without(b, j), Without(fb, j);
      WithoutHead(a);
      WithoutHead(fa);
      Cancel(a[0], multiset(a[1..]), multiset(b'));
      MapKeepsMultiset(a[1..], b', fa[1..], fb', f);
    }
  }

  lemma Find<T>(x: T, a: seq<T>, b: seq<T>) returns (j: nat)
    requires multiset(a) == multiset(b) && x in a
    ensures j < |b| && b[j] == x
  {
    assert x in multiset(b);
    j :| 0 <= j < |b| && b[j] == x;
  }

  lemma Cancel<T>(x: T, s: multiset<T>, t: multiset<T>)
    requires multiset{x} + s == multiset{x} + t
    ensures s == t
  {
    assert s == multiset{x} + s - multiset{x};
    assert t == multiset{x} + t - multiset{x};
  }

  function Without<T>(s: seq<T>, j: nat): (r: seq<T>)
    requires j < |s|
    ensures multiset(s) == multiset{s[j]} + multiset(r)
    ensures |r| == |s| - 1 && forall i :: 0 <= i < |r| ==> r[i] == if i < j then s[i] else s[i + 1]
  {
    assert s == s[..j] + [s[j]] + s[j + 1..];
    s[..j] + s[j + 1..]
  }

  lemma WithoutHead<T>(s: seq<T>)
    requires s != []
    ensures multiset(s) == multiset{s[0]} + multiset(s[1..])
  {
    assert s == [s[0]] + s[1..];
  }

  lemma VerdictOfPermuted(audit: bool, rs: seq<RuleResult>, rs': seq<RuleResult>)
    requires multiset(rs) == multiset(rs')
    ensures Verdict(audit, rs) == Verdict(audit, rs')
  {
    assert forall r :: r in rs <==> r in multiset(rs);
    assert forall r :: r in rs' <==> r in multiset(rs');
  }

  /** Permuting a policy's rules permutes the outcomes and leaves the verdict alone. */
  lemma RuleOrderIsIrrelevant(lib: Library, audit: bool, rules: seq<CompiledRule>, rules': seq<CompiledRule>,
      ws: seq<Waiver>, inp: Input, now: int)
    requires multiset(rules) == multiset(rules')
    ensures var res := EvaluateF(lib, audit, rules, ws, inp, now);
            var res' := EvaluateF(lib, audit, rules', ws, inp, now);
            multiset(res.rules) == multiset(res'.rules) && res.decision == res'.decision
  {
    var f := (c: CompiledRule) => Waive(lib, ws, inp, now, RuleOutcome(lib, inp, c));
    var rs := WaiveAll(lib, ws, inp, now, Outcomes(lib, inp, rules));
    var rs' := WaiveAll(lib, ws, inp, now, Outcomes(lib, inp, rules'));
    MapKeepsMultiset(rules, rules', rs, rs', f);
    VerdictOfPermuted(audit, rs, rs');
  }

  // ----- Monotonicity -----

  /** The second outcomes are the first with more of the waivable ones waived. */
  ghost predicate MoreWaived(rs: seq<RuleResult>, rs': seq<RuleResult>)
  {
    && |rs| == |rs'|
    && forall i :: 0 <= i < |rs| ==>
         rs'[i] == rs[i] || (Waivable(rs[i]) && rs[i].error.None? && rs'[i] == rs[i].(waived := true))
  }

  lemma FiredWhenMoreWaived(rs: seq<RuleResult>, rs': seq<RuleResult>, e: Effect)
    requires MoreWaived(rs, rs')
    ensures Fired(rs', e) ==> Fired(rs, e)
    ensures Fired(rs, AllowEffect) ==> Fired(rs', AllowEffect)
  {
    if Fired(rs', e) {
      var r :| r in rs' && !r.waived && r.error.None? && r.matched && r.effect == e;
      var i :| 0 <= i < |rs'| && rs'[i] == r;
      assert rs[i] in rs;
    }
    if Fired(rs, AllowEffect) {
      var r :| r in rs && !r.waived && r.error.None? && r.matched && r.effect == AllowEffect;
      var i :| 0 <= i < |rs| && rs[i] == r;
      assert rs'[i] in rs';
    }
  }

  lemma ErroredWhenMoreWaived(rs: seq<RuleResult>, rs': seq<RuleResult>)
    requires MoreWaived(rs, rs')
    ensures Errored(rs) <==> Errored(rs')
  {
    if Errored(rs) {
      var r :| r in rs && !r.waived && r.error.Some?;
      var i :| 0 <= i < |rs| && rs[i] == r;
      assert rs'[i] in rs';
    }
    if Errored(rs') {
      var r :| r in rs' && !r.waived && r.error.Some?;
      var i :| 0 <= i < |rs'| && rs'[i] == r;
      assert rs[i] in rs;
    }
  }

  lemma MoreWaivedIsWeaker(audit: bool, rs: seq<RuleResult>, rs': seq<RuleResult>)
    requires MoreWaived(rs, rs')
    ensures Verdict(audit, rs').Strength() <= Verdict(audit, rs).Strength()
  {
    ErroredWhenMoreWaived(rs, rs');
    FiredWhenMoreWaived(rs, rs', DenyEffect);
    FiredWhenMoreWaived(rs, rs', WarnEffect);
    FiredWhenMoreWaived(rs, rs', AllowEffect);
  }

  /** Every waiver honoured in one evaluation is honoured in the other. */
  ghost predicate HonoursMore(lib: Library, inp: Input, ws: seq<Waiver>, now: int, ws': seq<Waiver>, now': int)
  {
    forall w {:trigger w in ws} :: w in ws && Active(w, now) && InScope(lib, w, inp) ==> w in ws' && Active(w, now')
  }

  lemma HonouringMoreIsWeaker(lib: Library, audit: bool, rules: seq<CompiledRule>, inp: Input,
      ws: seq<Waiver>, now: int, ws': seq<Waiver>, now': int)
    requires HonoursMore(lib, inp, ws, now, ws', now')
    ensures EvaluateF(lib, audit, rules, ws', inp, now').decision.Strength()
         <= EvaluateF(lib, audit, rules, ws, inp, now).decision.Strength()
  {
    var rs := Outcomes(lib, inp, rules);
    var less, more := WaiveAll(lib, ws, inp, now, rs), WaiveAll(lib, ws', inp, now', rs);
    forall i | 0 <= i < |rs|
      ensures more[i] == less[i] || (Waivable(less[i]) && less[i].error.None? && more[i] == less[i].(waived := true))
    {
      if Waivable(rs[i]) && exists w :: w in ws && Covers(lib, w, inp, now, rs[i].id) {
        var w :| w in ws && Covers(lib, w, inp, now, rs[i].id);
        assert w in ws' && Covers(lib, w, inp, now', rs[i].id);
      }
    }
    MoreWaivedIsWeaker(audit, less, more);
  }

  /** Adding waivers, wherever in the list, never strengthens the verdict. */
  lemma AddingWaiversNeverStrengthens(lib: Library, audit: bool, rules: seq<CompiledRule>, inp: Input,
      ws: seq<Waiver>, ws': seq<Waiver>, now: int)
    requires forall w :: w in ws ==> w in ws'
    ensures EvaluateF(lib, audit, rules, ws', inp, now).decision.Strength()
         <= EvaluateF(lib, audit, rules, ws, inp, now).decision.Strength()
  {
    HonouringMoreIsWeaker(lib, audit, rules, inp, ws, now, ws', now);
  }

  /** As time passes the verdict never weakens. */
  lemma TimeNeverWeakens(lib: Library, audit: bool, rules: seq<CompiledRule>, inp: Input,
      ws: seq<Waiver>, now: int, later: int)
    requires now != 0 && now <= later
    ensures EvaluateF(lib, audit, rules, ws, inp, now).decision.Strength()
         <= EvaluateF(lib, audit, rules, ws, inp, later).decision.Strength()
  {
    HonouringMoreIsWeaker(lib, audit, rules, inp, ws, later, ws, now);
  }

  /** Without a clock no waiver is honoured. */
  lemma NoClockNoWaivers(lib: Library, audit: bool, rules: seq<CompiledRule>, inp: Input, ws: seq<Waiver>)
    ensures EvaluateF(lib, audit, rules, ws, inp, 0) == EvaluateF(lib, audit, rules, [], inp, 0)
  {
    var rs := Outcomes(lib, inp, rules);
    assert forall w :: !Active(w, 0);
    assert WaiveAll(lib, ws, inp, 0, rs) == WaiveAll(lib, [], inp, 0, rs);
  }

  /** Auditing gives the enforced verdict with deny turned into warn. */
  lemma AuditIsEnforceWithoutDeny(lib: Library, rules: seq<CompiledRule>, ws: seq<Waiver>, inp: Input, now: int)
    ensures var enforced := EvaluateF(lib, false, rules, ws, inp, now);
            var audited := EvaluateF(lib, true, rules, ws, inp, now);
            audited.rules == enforced.rules &&
            audited.decision == if enforced.decision == Deny then Warn else enforced.decision
  {}

  /** A policy of compiled, well-typed rules denies only because a rule that matched says so. */
  lemma TypedPoliciesNeverFailClosed(lang: Lang, lib: Library, rules: seq<CompiledRule>, ws: seq<Waiver>, inp: Input,
      now: int)
    requires forall i :: 0 <= i < |rules| ==>
      IsCompiled(lang, lib, rules[i].rule, rules[i]) && TypeOf(rules[i].ast) == Some(BoolType)
    ensures var res := EvaluateF(lib, false, rules, ws, inp, now);
            res.decision == Deny <==> Fired(res.rules, DenyEffect) && !Fired(res.rules, AllowEffect)
  {
    var rs := Outcomes(lib, inp, rules);
    forall i | 0 <= i < |rules|
      ensures rs[i].error.None?
    {
      BooleanRuleNeverErrs(lib, inp, rules[i].ast);
    }
    var out := WaiveAll(lib, ws, inp, now, rs);
    assert forall i :: 0 <= i < |out| ==> out[i].error.None?;
    assert !Errored(out);
  }

  // ----- Reports on a result -----

  predicate Blocking(rr: RuleResult)
  {
    !rr.waived && (rr.error.Some? || (rr.matched && rr.effect == DenyEffect))
  }

  function IsFiring(includeWaived: bool): RuleResult -> bool
  {
    (rr: RuleResult) => (rr.matched || rr.error.Some?) && (includeWaived || !rr.waived)
  }

  function IsDenial(d: Decision): RuleResult -> bool
  {
    (rr: RuleResult) => d == Deny && Blocking(rr)
  }

  function IsWarning(d: Decision): RuleResult -> bool
  {
    (rr: RuleResult) => !rr.waived && ((rr.matched && rr.effect == WarnEffect) || (Blocking(rr) && d != Deny))
  }

  function IsWaived(): RuleResult -> bool
  {
    (rr: RuleResult) => rr.waived
  }

  function IsCarveOut(): RuleResult -> bool
  {
    (rr: RuleResult) => !rr.waived && rr.matched && rr.effect == AllowEffect
  }

  method Firing(res: Result, includeWaived: bool) returns (out: seq<RuleResult>)
    ensures out == Filter(res.rules, IsFiring(includeWaived))
  {
    out := [];
    for k := 0 to |res.rules|
      invariant out == Filter(res.rules[..k], IsFiring(includeWaived))
    {
      var rr := res.rules[k];
      assert res.rules[..k + 1][..k] == res.rules[..k];
      if !rr.matched && rr.error.None? {
        continue;
      }
      if rr.waived && !includeWaived {
        continue;
      }
      out := out + [rr];
    }
    assert res.rules[..|res.rules|] == res.rules;
  }

  method Denials(res: Result) returns (out: seq<RuleResult>)
    ensures out == Filter(res.rules, IsDenial(res.decision))
  {
    out := [];
    if res.decision != Deny {
      FilterNone(res.rules, IsDenial(res.decision));
      return;
    }
    for k := 0 to |res.rules|
      invariant out == Filter(res.rules[..k], IsDenial(res.decision))
    {
      var rr := res.rules[k];
      assert res.rules[..k + 1][..k] == res.rules[..k];
      if Blocking(rr) {
        out := out + [rr];
      }
    }
    assert res.rules[..|res.rules|] == res.rules;
  }

  method Warnings(res: Result) returns (out: seq<RuleResult>)
    ensures out == Filter(res.rules, IsWarning(res.decision))
  {
    out := [];
    for k := 0 to |res.rules|
      invariant out == Filter(res.rules[..k], IsWarning(res.decision))
    {
      var rr := res.rules[k];
      assert res.rules[..k + 1][..k] == res.rules[..k];
      if rr.waived {
        continue;
      }
      if rr.matched && rr.effect == WarnEffect {
        out := out + [rr];
      } else if Blocking(rr) && res.decision != Deny {
        out := out + [rr];
      }
    }
    assert res.rules[..|res.rules|] == res.rules;
  }

  method WaivedRules(res: Result) returns (out: seq<RuleResult>)
    ensures out == Filter(res.rules, IsWaived())
  {
    out := [];
    for k := 0 to |res.rules|
      invariant out == Filter(res.rules[..k], IsWaived())
    {
      assert res.rules[..k + 1][..k] == res.rules[..k];
      if res.rules[k].waived {
        out := out + [res.rules[k]];
      }
    }
    assert res.rules[..|res.rules|] == res.rules;
  }

  /** Outcomes as an evaluation leaves them: an error excludes a match, and only a matched deny
      or warn is waived. */
  predicate Settled(rr: RuleResult)
  {
    (rr.error.Some? ==> !rr.matched) && (rr.waived ==> Waivable(rr))
  }

  lemma EvaluationSettles(lib: Library, audit: bool, rules: seq<CompiledRule>, ws: seq<Waiver>, inp: Input, now: int)
    ensures var res := EvaluateF(lib, audit, rules, ws, inp, now);
            forall i :: 0 <= i < |res.rules| ==> Settled(res.rules[i])
  {}

  lemma {:induction false} FilterSplits(rs: seq<RuleResult>, d: Decision)
    requires forall i :: 0 <= i < |rs| ==> Settled(rs[i])
    ensures multiset(Filter(rs, IsFiring(true))) ==
            multiset(Filter(rs, IsDenial(d))) + multiset(Filter(rs, IsWarning(d))) +
            multiset(Filter(rs, IsWaived())) + multiset(Filter(rs, IsCarveOut()))
    decreases |rs|
  {
    if rs != [] {
      FilterSplits(rs[..|rs| - 1], d);
      FilterStep(rs, IsFiring(true));
      FilterStep(rs, IsDenial(d));
      FilterStep(rs, IsWarning(d));
      FilterStep(rs, IsWaived());
      FilterStep(rs, IsCarveOut());
      ReportedOnce(rs[|rs| - 1], d);
    }
  }

  function If(b: bool, r: RuleResult): multiset<RuleResult>
  {
    if b then multiset{r} else multiset{}
  }

  lemma FilterStep(rs: seq<RuleResult>, p: RuleResult -> bool)
    requires rs != []
    ensures multiset(Filter(rs, p)) == multiset(Filter(rs[..|rs| - 1], p)) + If(p(rs[|rs| - 1]), rs[|rs| - 1])
  {}

  lemma ReportedOnce(r: RuleResult, d: Decision)
    requires Settled(r)
    ensures If(IsFiring(true)(r), r) ==
            If(IsDenial(d)(r), r) + If(IsWarning(d)(r), r) + If(IsWaived()(r), r) + If(IsCarveOut()(r), r)
  {}

  /** What fired is reported exactly once: as a denial, a warning, a waived rule or a matched
      carve-out; and there are denials exactly when the verdict is deny. */
  lemma FiringSplits(lib: Library, audit: bool, rules: seq<CompiledRule>, ws: seq<Waiver>, inp: Input, now: int)
    ensures var res := EvaluateF(lib, audit, rules, ws, inp, now);
            var (rs, d) := (res.rules, res.decision);
            multiset(Filter(rs, IsFiring(true))) ==
            multiset(Filter(rs, IsDenial(d))) + multiset(Filter(rs, IsWarning(d))) +
            multiset(Filter(rs, IsWaived())) + multiset(Filter(rs, IsCarveOut()))
    ensures var res := EvaluateF(lib, audit, rules, ws, inp, now);
            res.decision == Deny <==> Filter(res.rules, IsDenial(res.decision)) != []
  {
    var res := EvaluateF(lib, audit, rules, ws, inp, now);
    EvaluationSettles(lib, audit, rules, ws, inp, now);
    FilterSplits(res.rules, res.decision);
    if res.decision == Deny {
      var r :| r in res.rules && Blocking(r);
      FilterMembers(res.rules, IsDenial(Deny), r);
    } else {
      FilterNone(res.rules, IsDenial(res.decision));
    }
  }
}
