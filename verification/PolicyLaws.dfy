/** What an evaluated policy decides, told from the rules' expressions, the waivers and the clock
    alone. */
module PolicyLaws {
  import opened Options
  import opened PolicyAst
  import opened PolicyDocument
  import opened PolicyEval
  import opened PolicyLexer
  import opened PolicyText
  import opened PolicyVerdict

  /** The rule cannot be evaluated: its expression fails or is no boolean. */
  ghost predicate Fails(lib: Library, inp: Input, c: CompiledRule)
  {
    var r := EvalF(lib, inp, c.ast);
    r.Failed? || !r.v.Bool?
  }

  ghost predicate Holds(lib: Library, inp: Input, c: CompiledRule)
  {
    EvalF(lib, inp, c.ast) == Got(Bool(true))
  }

  /** Some waiver names the rule, has not expired by a clock that is set, and is meant for the
      image. */
  ghost predicate Waivered(lib: Library, ws: seq<Waiver>, inp: Input, now: int, c: CompiledRule)
  {
    exists w :: w in ws && w.ruleId == c.rule.id && now != 0 && w.expires != 0 && now < w.expires &&
      (w.registry == "" || w.registry == inp.image.registry) &&
      (w.imagePattern == "" ||
       (lib.compile(w.imagePattern).Some? && lib.compile(w.imagePattern).value(inp.image.reference)))
  }

  ghost predicate AnyFails(lib: Library, inp: Input, rules: seq<CompiledRule>)
  {
    exists c :: c in rules && Fails(lib, inp, c)
  }

  ghost predicate AnyAllows(lib: Library, inp: Input, rules: seq<CompiledRule>)
  {
    exists c :: c in rules && c.rule.effect == AllowEffect && Holds(lib, inp, c)
  }

  /** A deny or warn rule that holds and that nothing waives. */
  ghost predicate AnyStands(lib: Library, ws: seq<Waiver>, inp: Input, now: int, rules: seq<CompiledRule>, e: Effect)
  {
    exists c :: c in rules && c.rule.effect == e && Holds(lib, inp, c) && !Waivered(lib, ws, inp, now, c)
  }

  /** Each outcome tells how its rule evaluated and whether it is waived. */
  lemma OutcomesTell(lib: Library, audit: bool, rules: seq<CompiledRule>, ws: seq<Waiver>, inp: Input, now: int, i: nat)
    requires i < |rules|
    ensures var res := EvaluateF(lib, audit, rules, ws, inp, now);
            var c := rules[i];
            && |res.rules| == |rules| && res.audit == audit
            && res.rules[i].id == c.rule.id && res.rules[i].effect == c.rule.effect
            && (res.rules[i].error.Some? <==> Fails(lib, inp, c))
            && (res.rules[i].matched <==> Holds(lib, inp, c))
            && (res.rules[i].waived <==>
                Holds(lib, inp, c) && c.rule.effect != AllowEffect && Waivered(lib, ws, inp, now, c))
  {
    var rr := RuleOutcome(lib, inp, rules[i]);
    if w :| w in ws && Covers(lib, w, inp, now, rr.id) {
      assert Waivered(lib, ws, inp, now, rules[i]);
    }
  }

  lemma FiredTells(lib: Library, audit: bool, rules: seq<CompiledRule>, ws: seq<Waiver>, inp: Input, now: int)
    ensures var rs := EvaluateF(lib, audit, rules, ws, inp, now).rules;
            && (Errored(rs) <==> AnyFails(lib, inp, rules))
            && (Fired(rs, AllowEffect) <==> AnyAllows(lib, inp, rules))
            && (Fired(rs, DenyEffect) <==> AnyStands(lib, ws, inp, now, rules, DenyEffect))
            && (Fired(rs, WarnEffect) <==> AnyStands(lib, ws, inp, now, rules, WarnEffect))
  {
    var rs := EvaluateF(lib, audit, rules, ws, inp, now).rules;
    forall i | 0 <= i < |rules|
      ensures rs[i] in rs && rules[i] in rules
      ensures !rs[i].waived && rs[i].error.Some? <==> Fails(lib, inp, rules[i])
      ensures !rs[i].waived && rs[i].error.None? && rs[i].matched && rs[i].effect == rules[i].rule.effect <==>
              Holds(lib, inp, rules[i]) &&
              (rules[i].rule.effect == AllowEffect || !Waivered(lib, ws, inp, now, rules[i]))
    {
      OutcomesTell(lib, audit, rules, ws, inp, now, i);
    }
  }

  /** An enforced policy denies exactly when a rule cannot be evaluated, or a deny rule stands and
      no allow rule holds. */
  lemma DeniesIff(lib: Library, rules: seq<CompiledRule>, ws: seq<Waiver>, inp: Input, now: int)
    ensures EvaluateF(lib, false, rules, ws, inp, now).decision == Deny <==>
            || AnyFails(lib, inp, rules)
            || (AnyStands(lib, ws, inp, now, rules, DenyEffect) && !AnyAllows(lib, inp, rules))
  {
    FiredTells(lib, false, rules, ws, inp, now);
  }

  /** In either mode it allows exactly when every rule can be evaluated, no warn rule stands, and
      no deny rule does unless an allow rule holds; and auditing never denies. */
  lemma AllowsIff(lib: Library, audit: bool, rules: seq<CompiledRule>, ws: seq<Waiver>, inp: Input, now: int)
    ensures EvaluateF(lib, audit, rules, ws, inp, now).decision == Allow <==>
            && !AnyFails(lib, inp, rules) && !AnyStands(lib, ws, inp, now, rules, WarnEffect)
            && (AnyStands(lib, ws, inp, now, rules, DenyEffect) ==> AnyAllows(lib, inp, rules))
    ensures audit ==> EvaluateF(lib, audit, rules, ws, inp, now).decision != Deny
  {
    FiredTells(lib, audit, rules, ws, inp, now);
  }

  /** What stands in the way: a rule that cannot be evaluated, or a deny rule that stands. */
  ghost predicate Blocks(lib: Library, ws: seq<Waiver>, inp: Input, now: int, c: CompiledRule)
  {
    Fails(lib, inp, c) || (c.rule.effect == DenyEffect && Holds(lib, inp, c) && !Waivered(lib, ws, inp, now, c))
  }

  /** The reports: denials are what blocks a denied request, warnings what would have blocked one
      that is not denied and every warn rule that stands. */
  lemma ReportsTell(lib: Library, audit: bool, rules: seq<CompiledRule>, ws: seq<Waiver>, inp: Input, now: int, i: nat)
    requires i < |rules|
    ensures var res := EvaluateF(lib, audit, rules, ws, inp, now);
            var (rr, c) := (res.rules[i], rules[i]);
            var waived := c.rule.effect != AllowEffect && Waivered(lib, ws, inp, now, c);
            && (IsDenial(res.decision)(rr) <==> res.decision == Deny && Blocks(lib, ws, inp, now, c))
            && (IsWarning(res.decision)(rr) <==>
                || (c.rule.effect == WarnEffect && Holds(lib, inp, c) && !waived)
                || (res.decision != Deny && Blocks(lib, ws, inp, now, c)))
            && (IsWaived()(rr) <==> Holds(lib, inp, c) && waived)
            && (IsFiring(true)(rr) <==> Fails(lib, inp, c) || Holds(lib, inp, c))
            && (IsFiring(false)(rr) <==> Fails(lib, inp, c) || (Holds(lib, inp, c) && !waived))
  {
    OutcomesTell(lib, audit, rules, ws, inp, now, i);
  }

  /** So a policy whose only rule counts instead of asking is denied. */
  lemma FailsClosed(lib: Library, id: string, inp: Input, ws: seq<Waiver>, now: int)
    ensures var c := CompiledRule(Rule(id, "finding_count", DenyEffect), Ident("finding_count"));
            EvaluateF(lib, false, [c], ws, inp, now).decision == Deny
  {
    var c := CompiledRule(Rule(id, "finding_count", DenyEffect), Ident("finding_count"));
    assert c in [c] && Fails(lib, inp, c);
    DeniesIff(lib, [c], ws, inp, now);
  }

  // ----- From the document -----

  /** The rule's text, parsed, has this outcome. */
  ghost predicate TextGives(lang: Lang, lib: Library, inp: Input, r: RuleText, o: Outcome)
  {
    ParseExprF(lang, r.matchExpr).Ok? && EvalF(lib, inp, ParseExprF(lang, r.matchExpr).node) == o
  }

  ghost predicate TextHolds(lang: Lang, lib: Library, inp: Input, r: RuleText)
  {
    TextGives(lang, lib, inp, r, Got(Bool(true)))
  }

  ghost predicate TextFails(lang: Lang, lib: Library, inp: Input, r: RuleText)
  {
    !TextHolds(lang, lib, inp, r) && !TextGives(lang, lib, inp, r, Got(Bool(false)))
  }

  ghost predicate TextWaivered(lib: Library, ws: seq<WaiverText>, inp: Input, now: int, r: RuleText)
  {
    exists w :: w in ws && w.ruleId == r.id && now != 0 && w.expires != 0 && now < w.expires &&
      (w.registry == "" || w.registry == inp.image.registry) &&
      (w.imagePattern == "" ||
       (lib.compile(w.imagePattern).Some? && lib.compile(w.imagePattern).value(inp.image.reference)))
  }

  ghost predicate TextStands(lang: Lang, lib: Library, d: Document, inp: Input, now: int, effect: string)
  {
    exists i :: 0 <= i < |d.rules| && d.rules[i].effect == effect && TextHolds(lang, lib, inp, d.rules[i]) &&
      !TextWaivered(lib, d.waivers, inp, now, d.rules[i])
  }

  ghost predicate AnyTextFails(lang: Lang, lib: Library, d: Document, inp: Input)
  {
    exists i :: 0 <= i < |d.rules| && TextFails(lang, lib, inp, d.rules[i])
  }

  ghost predicate AnyTextAllows(lang: Lang, lib: Library, d: Document, inp: Input)
  {
    exists i :: 0 <= i < |d.rules| && d.rules[i].effect == "allow" && TextHolds(lang, lib, inp, d.rules[i])
  }

  /** The engine CompileDocument makes of d. */
  ghost predicate IsEngine(lang: Lang, lib: Library, d: Document, p: Policy, rules: seq<CompiledRule>)
  {
    && WellFormed(lib, d) && p == PolicyOf(d) && |rules| == |d.rules|
    && forall i :: 0 <= i < |d.rules| ==> IsCompiled(lang, lib, p.rules[i], rules[i])
  }

  lemma RuleIsItsText(lang: Lang, lib: Library, d: Document, p: Policy, rules: seq<CompiledRule>, inp: Input, now: int,
      i: nat)
    requires IsEngine(lang, lib, d, p, rules) && i < |rules|
    ensures var (c, r) := (rules[i], d.rules[i]);
            && (Holds(lib, inp, c) <==> TextHolds(lang, lib, inp, r))
            && (Fails(lib, inp, c) <==> TextFails(lang, lib, inp, r))
            && (Waivered(lib, p.waivers, inp, now, c) <==> TextWaivered(lib, d.waivers, inp, now, r))
            && (c.rule.effect == DenyEffect <==> r.effect == "deny")
            && (c.rule.effect == WarnEffect <==> r.effect == "warn")
            && (c.rule.effect == AllowEffect <==> r.effect == "allow")
  {
    var (c, r) := (rules[i], d.rules[i]);
    assert GoodRule(r) && IsCompiled(lang, lib, p.rules[i], c);
    assert p.rules[i] == Rule(r.id, r.matchExpr, EffectOf(r.effect));
    EffectsAreApart(r.effect);
    WaiversAreTheirTexts(lib, d, p, inp, now, c, r);
  }

  lemma EffectsAreApart(s: string)
    requires s == "deny" || s == "warn" || s == "allow"
    ensures EffectOf(s) == DenyEffect <==> s == "deny"
    ensures EffectOf(s) == WarnEffect <==> s == "warn"
    ensures EffectOf(s) == AllowEffect <==> s == "allow"
  {
    assert "deny"[0] != "warn"[0] && |"allow"| == 5;
  }

  lemma WaiversAreTheirTexts(lib: Library, d: Document, p: Policy, inp: Input, now: int, c: CompiledRule, r: RuleText)
    requires p == PolicyOf(d) && c.rule.id == r.id
    ensures Waivered(lib, p.waivers, inp, now, c) <==> TextWaivered(lib, d.waivers, inp, now, r)
  {
    assert |p.waivers| == |d.waivers|;
    forall k | 0 <= k < |d.waivers|
      ensures var (w, t) := (p.waivers[k], d.waivers[k]);
              w in p.waivers && t in d.waivers && w == Waiver(t.ruleId, t.expires, t.registry, t.imagePattern)
    {}
  }

  /** A document denies exactly when it does not say audit, and some rule's text cannot be
      evaluated, or a deny rule's text holds unwaived and no allow rule's does. */
  lemma DocumentDeniesIff(lang: Lang, lib: Library, d: Document, p: Policy, rules: seq<CompiledRule>, inp: Input,
      now: int)
    requires IsEngine(lang, lib, d, p, rules)
    ensures EvaluateF(lib, p.audit, rules, p.waivers, inp, now).decision == Deny <==>
            && d.mode != "audit"
            && (AnyTextFails(lang, lib, d, inp) ||
                (TextStands(lang, lib, d, inp, now, "deny") && !AnyTextAllows(lang, lib, d, inp)))
  {
    AllAreTheirTexts(lang, lib, d, p, rules, inp, now);
    if d.mode != "audit" {
      DeniesIff(lib, rules, p.waivers, inp, now);
    } else {
      AllowsIff(lib, true, rules, p.waivers, inp, now);
    }
  }

  /** And allows exactly when every text can be evaluated, no warn rule's holds unwaived, and no
      deny rule's does unless an allow rule's holds. */
  lemma DocumentAllowsIff(lang: Lang, lib: Library, d: Document, p: Policy, rules: seq<CompiledRule>, inp: Input,
      now: int)
    requires IsEngine(lang, lib, d, p, rules)
    ensures EvaluateF(lib, p.audit, rules, p.waivers, inp, now).decision == Allow <==>
            && !AnyTextFails(lang, lib, d, inp) && !TextStands(lang, lib, d, inp, now, "warn")
            && (TextStands(lang, lib, d, inp, now, "deny") ==> AnyTextAllows(lang, lib, d, inp))
  {
    AllAreTheirTexts(lang, lib, d, p, rules, inp, now);
    AllowsIff(lib, p.audit, rules, p.waivers, inp, now);
  }

  lemma AllAreTheirTexts(lang: Lang, lib: Library, d: Document, p: Policy, rules: seq<CompiledRule>, inp: Input,
      now: int)
    requires IsEngine(lang, lib, d, p, rules)
    ensures AnyFails(lib, inp, rules) <==> AnyTextFails(lang, lib, d, inp)
    ensures AnyAllows(lib, inp, rules) <==> AnyTextAllows(lang, lib, d, inp)
    ensures AnyStands(lib, p.waivers, inp, now, rules, DenyEffect) <==> TextStands(lang, lib, d, inp, now, "deny")
    ensures AnyStands(lib, p.waivers, inp, now, rules, WarnEffect) <==> TextStands(lang, lib, d, inp, now, "warn")
  {
    forall i | 0 <= i < |rules|
      ensures rules[i] in rules
      ensures Fails(lib, inp, rules[i]) <==> TextFails(lang, lib, inp, d.rules[i])
      ensures rules[i].rule.effect == AllowEffect && Holds(lib, inp, rules[i]) <==>
              d.rules[i].effect == "allow" && TextHolds(lang, lib, inp, d.rules[i])
      ensures SameStanding(lang, lib, d, p, rules, inp, now, i, DenyEffect, "deny")
      ensures SameStanding(lang, lib, d, p, rules, inp, now, i, WarnEffect, "warn")
    {
      RuleIsItsText(lang, lib, d, p, rules, inp, now, i);
    }
    StandsTogether(lang, lib, d, p, rules, inp, now, DenyEffect, "deny");
    StandsTogether(lang, lib, d, p, rules, inp, now, WarnEffect, "warn");
  }

  ghost predicate SameStanding(lang: Lang, lib: Library, d: Document, p: Policy, rules: seq<CompiledRule>, inp: Input,
      now: int, i: nat, e: Effect, effect: string)
    requires i < |rules| == |d.rules|
  {
    (rules[i].rule.effect == e && Holds(lib, inp, rules[i]) && !Waivered(lib, p.waivers, inp, now, rules[i])) <==>
    (d.rules[i].effect == effect && TextHolds(lang, lib, inp, d.rules[i]) &&
     !TextWaivered(lib, d.waivers, inp, now, d.rules[i]))
  }

  lemma StandsTogether(lang: Lang, lib: Library, d: Document, p: Policy, rules: seq<CompiledRule>, inp: Input, now: int,
      e: Effect, effect: string)
    requires |rules| == |d.rules|
    requires forall i :: 0 <= i < |rules| ==> SameStanding(lang, lib, d, p, rules, inp, now, i, e, effect)
    ensures AnyStands(lib, p.waivers, inp, now, rules, e) <==> TextStands(lang, lib, d, inp, now, effect)
  {
    if AnyStands(lib, p.waivers, inp, now, rules, e) {
      var c :| c in rules && c.rule.effect == e && Holds(lib, inp, c) && !Waivered(lib, p.waivers, inp, now, c);
      var i :| 0 <= i < |rules| && rules[i] == c;
      assert SameStanding(lang, lib, d, p, rules, inp, now, i, e, effect);
    }
    if TextStands(lang, lib, d, inp, now, effect) {
      var i :| 0 <= i < |d.rules| && d.rules[i].effect == effect && TextHolds(lang, lib, inp, d.rules[i]) &&
        !TextWaivered(lib, d.waivers, inp, now, d.rules[i]);
      assert SameStanding(lang, lib, d, p, rules, inp, now, i, e, effect);
      assert rules[i] in rules;
    }
  }
}
