/** The policy document: what its structural validation accepts, and compiling it as a whole. */
module PolicyDocument {
  import opened Lists
  import opened Options
  import opened PolicyEval
  import opened PolicyLexer
  import opened PolicyVerdict
  import opened Text

  datatype RuleText = RuleText(id: string, matchExpr: string, effect: string)

  /** A waiver; `expires` is the parsed date, 0 where there is none or it does not parse. */
  datatype WaiverText = WaiverText(ruleId: string, reason: string, expires: int, registry: string, imagePattern: string)

  datatype Document = Document(
    version: string, name: string, mode: string, rules: seq<RuleText>, waivers: seq<WaiverText>)

  /** The first defect found, with the position of the rule or waiver that has it. */
  datatype Defect =
    | NoVersion | UnsupportedVersion | NoName | UnknownMode | NoRules
    | RuleWithoutId(at: nat) | DuplicateId(at: nat) | RuleWithoutMatch(at: nat) | InvalidEffect(at: nat)
    | WaiverWithoutRule(at: nat) | WaiverWithoutReason(at: nat) | WaiverWithoutExpiry(at: nat) | InvalidPattern(at: nat)

  // ----- What a document must be -----

  predicate IsEffect(s: string) { s == "deny" || s == "warn" || s == "allow" }

  predicate HasContent(s: string)
  {
    exists i :: 0 <= i < |s| && !IsSpace(s[i])
  }

  function Ids(rules: seq<RuleText>): seq<string>
  {
    Map(rules, (r: RuleText) => r.id)
  }

  predicate GoodRule(r: RuleText)
  {
    r.id != "" && HasContent(r.matchExpr) && IsEffect(r.effect)
  }

  predicate GoodWaiver(lib: Library, w: WaiverText)
  {
    w.ruleId != "" && w.reason != "" && w.expires != 0 && (w.imagePattern == "" || lib.compile(w.imagePattern).Some?)
  }

  ghost predicate WellFormed(lib: Library, d: Document)
  {
    && d.version == "1" && d.name != "" && (d.mode == "" || d.mode == "enforce" || d.mode == "audit")
    && d.rules != [] && NoRepeats(Ids(d.rules)) && (forall i :: 0 <= i < |d.rules| ==> GoodRule(d.rules[i]))
    && (forall i :: 0 <= i < |d.waivers| ==> GoodWaiver(lib, d.waivers[i]))
  }

  // ----- The validation -----

  function HeaderDefect(d: Document): Option<Defect>
  {
    if d.version == "" then Some(NoVersion)
    else if d.version != "1" then Some(UnsupportedVersion)
    else if d.name == "" then Some(NoName)
    else if d.mode != "" && d.mode != "enforce" && d.mode != "audit" then Some(UnknownMode)
    else if d.rules == [] then Some(NoRules)
    else None
  }

  function RuleDefect(rules: seq<RuleText>, i: nat): Option<Defect>
    requires i < |rules|
  {
    if rules[i].id == "" then Some(RuleWithoutId(i))
    else if rules[i].id in Ids(rules[..i]) then Some(DuplicateId(i))
    else if !HasContent(rules[i].matchExpr) then Some(RuleWithoutMatch(i))
    else if !IsEffect(rules[i].effect) then Some(InvalidEffect(i))
    else None
  }

  function WaiverDefect(lib: Library, w: WaiverText, i: nat): Option<Defect>
  {
    if w.ruleId == "" then Some(WaiverWithoutRule(i))
    else if w.reason == "" then Some(WaiverWithoutReason(i))
    else if w.expires == 0 then Some(WaiverWithoutExpiry(i))
    else if w.imagePattern != "" && lib.compile(w.imagePattern).None? then Some(InvalidPattern(i))
    else None
  }

  function FirstRuleDefect(rules: seq<RuleText>, i: nat): Option<Defect>
    requires i <= |rules|
    decreases |rules| - i
  {
    if i == |rules| then None
    else if RuleDefect(rules, i).Some? then RuleDefect(rules, i)
    else FirstRuleDefect(rules, i + 1)
  }

  function FirstWaiverDefect(lib: Library, ws: seq<WaiverText>, i: nat): Option<Defect>
    requires i <= |ws|
    decreases |ws| - i
  {
    if i == |ws| then None
    else if WaiverDefect(lib, ws[i], i).Some? then WaiverDefect(lib, ws[i], i)
    else FirstWaiverDefect(lib, ws, i + 1)
  }

  function FirstDefect(lib: Library, d: Document): Option<Defect>
  {
    if HeaderDefect(d).Some? then HeaderDefect(d)
    else if FirstRuleDefect(d.rules, 0).Some? then FirstRuleDefect(d.rules, 0)
    else FirstWaiverDefect(lib, d.waivers, 0)
  }

  lemma {:induction false} NoRuleDefectIff(rules: seq<RuleText>, i: nat)
    requires i <= |rules|
    ensures FirstRuleDefect(rules, i) == None <==> forall k :: i <= k < |rules| ==> RuleDefect(rules, k) == None
    decreases |rules| - i
  {
    if i < |rules| {
      NoRuleDefectIff(rules, i + 1);
    }
  }

  lemma {:induction false} NoWaiverDefectIff(lib: Library, ws: seq<WaiverText>, i: nat)
    requires i <= |ws|
    ensures FirstWaiverDefect(lib, ws, i) == None <==> forall k :: i <= k < |ws| ==> GoodWaiver(lib, ws[k])
    decreases |ws| - i
  {
    if i < |ws| {
      NoWaiverDefectIff(lib, ws, i + 1);
    }
  }

  /** No id occurs before itself exactly when none occurs twice. */
  lemma EarlierIdsIff(rules: seq<RuleText>)
    ensures NoRepeats(Ids(rules)) <==> forall k :: 0 <= k < |rules| ==> rules[k].id !in Ids(rules[..k])
  {
    var ids := Ids(rules);
    assert forall k :: 0 <= k < |rules| ==> ids[k] == rules[k].id && Ids(rules[..k]) == ids[..k];
    if forall k :: 0 <= k < |rules| ==> rules[k].id !in Ids(rules[..k]) {
      forall i, j | 0 <= i < j < |ids|
        ensures ids[i] != ids[j]
      {
        assert rules[j].id !in Ids(rules[..j]);
        assert ids[..j][i] == ids[i];
      }
    }
  }

  /** Validation finds no defect exactly in the well-formed documents. */
  lemma NoDefectIff(lib: Library, d: Document)
    ensures FirstDefect(lib, d) == None <==> WellFormed(lib, d)
  {
    NoRuleDefectIff(d.rules, 0);
    NoWaiverDefectIff(lib, d.waivers, 0);
    EarlierIdsIff(d.rules);
    assert forall k :: 0 <= k < |d.rules| ==>
      (RuleDefect(d.rules, k) == None <==> GoodRule(d.rules[k]) && d.rules[k].id !in Ids(d.rules[..k]));
  }

  lemma {:induction false} TrimLeftEmptyIff(s: string)
    ensures TrimLeft(s) == "" <==> !HasContent(s)
    ensures TrimLeft(s) != "" ==> !IsSpace(TrimLeft(s)[0])
    decreases |s|
  {
    if s != "" && IsSpace(s[0]) {
      TrimLeftEmptyIff(s[1..]);
      assert forall i :: 0 < i < |s| ==> s[i] == s[1..][i - 1];
    }
  }

  lemma {:induction false} TrimRightKeeps(s: string)
    requires s != "" && !IsSpace(s[0])
    ensures TrimRight(s) != ""
    decreases |s|
  {
    if IsSpace(s[|s| - 1]) {
      TrimRightKeeps(s[..|s| - 1]);
    }
  }

  /** Trimming leaves nothing exactly of a text without content. */
  lemma TrimmedEmptyIff(s: string)
    ensures TrimRight(TrimLeft(s)) == "" <==> !HasContent(s)
  {
    TrimLeftEmptyIff(s);
    if TrimLeft(s) != "" {
      TrimRightKeeps(TrimLeft(s));
    }
  }

  method Validate(lib: Library, d: Document) returns (defect: Option<Defect>)
    ensures defect == FirstDefect(lib, d)
    ensures defect == None <==> WellFormed(lib, d)
  {
    NoDefectIff(lib, d);
    defect := HeaderDefect(d);
    if defect.Some? {
      return;
    }
    var seen: set<string> := {};
    for i := 0 to |d.rules|
      invariant FirstRuleDefect(d.rules, 0) == FirstRuleDefect(d.rules, i)
      invariant forall id :: id in seen <==> id in Ids(d.rules[..i])
    {
      var r := d.rules[i];
      assert Ids(d.rules[..i + 1]) == Ids(d.rules[..i]) + [r.id];
      TrimmedEmptyIff(r.matchExpr);
      if r.id == "" {
        return Some(RuleWithoutId(i));
      }
      if r.id in seen {
        return Some(DuplicateId(i));
      }
      seen := seen + {r.id};
      if TrimRight(TrimLeft(r.matchExpr)) == "" {
        return Some(RuleWithoutMatch(i));
      }
      if !IsEffect(r.effect) {
        return Some(InvalidEffect(i));
      }
    }
    for i := 0 to |d.waivers|
      invariant FirstWaiverDefect(lib, d.waivers, 0) == FirstWaiverDefect(lib, d.waivers, i)
    {
      defect := WaiverDefect(lib, d.waivers[i], i);
      if defect.Some? {
        return;
      }
    }
    defect := None;
  }

  // ----- Compiling a document -----

  function EffectOf(s: string): Effect
  {
    if s == "deny" then DenyEffect else if s == "warn" then WarnEffect else AllowEffect
  }

  function PolicyOf(d: Document): Policy
  {
    Policy(d.mode == "audit",
           Map(d.rules, (r: RuleText) => Rule(r.id, r.matchExpr, EffectOf(r.effect))),
           Map(d.waivers, (w: WaiverText) => Waiver(w.ruleId, w.expires, w.registry, w.imagePattern)))
  }

  datatype Compiled = Invalid(defect: Defect) | Broken(ids: seq<string>) | Engine(policy: Policy, rules: seq<CompiledRule>)

  /** Compile: an engine exactly for a well-formed document all rules of which compile, and
      otherwise its first defect or all its broken rules. */
  method CompileDocument(lang: Lang, lib: Library, d: Document) returns (c: Compiled)
    ensures c.Engine? <==>
            WellFormed(lib, d) && forall i :: 0 <= i < |d.rules| ==> CompileRule(lang, lib, PolicyOf(d).rules[i]).Some?
    ensures c.Engine? ==> c.policy == PolicyOf(d) && |c.rules| == |d.rules|
    ensures c.Engine? ==> forall i :: 0 <= i < |d.rules| ==> IsCompiled(lang, lib, c.policy.rules[i], c.rules[i])
    ensures c.Invalid? <==> !WellFormed(lib, d)
    ensures c.Invalid? ==> FirstDefect(lib, d) == Some(c.defect)
    ensures c.Broken? ==> c.ids == BadRules(lang, lib, PolicyOf(d).rules)
  {
    var defect := Validate(lib, d);
    if defect.Some? {
      return Invalid(defect.value);
    }
    var p := PolicyOf(d);
    var compilation := Compile(lang, lib, p);
    c := match compilation
      case Ready(rules) => Engine(p, rules)
      case Rejected(ids) => Broken(ids);
  }
}
