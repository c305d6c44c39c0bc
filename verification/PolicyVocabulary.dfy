/** The names of the policy language: how they are read, what each stands for, and which trees
    the compile-time check lets pass. */
module PolicyVocabulary {
  import opened Options
  import opened Text
  import opened PolicyAst
  import opened PolicyEval
  import opened PolicyGrammar
  import opened PolicyLexer
  import opened PolicyMeaning
  import opened PolicyParser
  import opened PolicyText
  import opened PolicyTypes

  /** A name of small letters and underscores. */
  predicate IsWordName(s: string)
  {
    s != "" && s != "true" && s != "false" && forall i :: 0 <= i < |s| ==> 'a' <= s[i] <= 'z' || s[i] == '_'
  }

  lemma {:induction false} NameIsRead(lang: Lang, s: string)
    requires Known(lang) && forall i :: 0 <= i < |s| ==> 'a' <= s[i] <= 'z' || s[i] == '_'
    ensures IdentLen(lang, s) == |s|
    decreases |s|
  {
    if s != "" {
      NameIsRead(lang, s[1..]);
    }
  }

  /** A name stands for itself. */
  lemma NameLaw(lang: Lang, s: string)
    requires Known(lang) && IsWordName(s)
    ensures ParseExprF(lang, s + " ") == Ok(Ident(s))
  {
    NameIsRead(lang, s);
    RenderOne(TIdent(s));
    RenderedIsRead(lang, CIdent(s), s + " ");
  }

  // ----- Calls and lists -----

  ghost predicate AllPrintable(lang: Lang, args: seq<Node>)
  {
    forall i :: 0 <= i < |args| ==> Printable(lang, args[i])
  }

  /** The texts of some trees with commas between them. */
  ghost function Commas(lang: Lang, args: seq<Node>): string
    requires AllPrintable(lang, args)
  {
    if args == [] then ""
    else if |args| == 1 then Print(lang, args[0])
    else Print(lang, args[0]) + (", " + Commas(lang, args[1..]))
  }

  ghost function Trees(lang: Lang, args: seq<Node>): seq<Cst>
    requires AllPrintable(lang, args)
  {
    if args == [] then [] else [Minimal(args[0], WordsOf(lang))] + Trees(lang, args[1..])
  }

  ghost predicate ListSpells(lang: Lang, cs: seq<Cst>, args: seq<Node>, text: string)
  {
    WFs(cs) && AllIn(Yields(cs), WordsOf(lang)) && text == Render(Yields(cs)) && Strips(cs) == args
  }

  lemma {:induction false} CommasSpell(lang: Lang, args: seq<Node>)
    requires Known(lang) && AllPrintable(lang, args)
    ensures ListSpells(lang, Trees(lang, args), args, Commas(lang, args))
    decreases |args|
  {
    if args != [] {
      PrintSpells(lang, args[0]);
      CommasSpell(lang, args[1..]);
      var m, ms := Minimal(args[0], WordsOf(lang)), Trees(lang, args[1..]);
      if |args| == 1 {
        OneSpells(lang, m, args[0], Print(lang, args[0]));
        assert args == [args[0]] && [m] + ms == [m];
      } else {
        MoreSpells(lang, m, ms, args[0], args[1..], Print(lang, args[0]), Commas(lang, args[1..]));
        assert args == [args[0]] + args[1..];
      }
    }
  }

  lemma OneSpells(lang: Lang, m: Cst, a: Node, text: string)
    requires Spells(lang, m, a, text)
    ensures ListSpells(lang, [m], [a], text)
  {
    assert [m][1..] == [] && WFs([]) && Strips([]) == [];
  }

  lemma MoreSpells(lang: Lang, m: Cst, ms: seq<Cst>, a: Node, others: seq<Node>, text: string, rest: string)
    requires Spells(lang, m, a, text) && ListSpells(lang, ms, others, rest) && ms != []
    ensures ListSpells(lang, [m] + ms, [a] + others, text + (", " + rest))
  {
    var cs := [m] + ms;
    assert cs[1..] == ms;
    var comma := [TComma];
    assert Yields(cs) == Yield(m) + comma + Yields(ms);
    RenderAppend(Yield(m) + comma, Yields(ms));
    RenderAppend(Yield(m), comma);
    RenderOne(TComma);
    assert "," + " " == ", ";
    assert text + ", " + rest == text + (", " + rest);
    AppendIn(Yield(m), comma, WordsOf(lang));
    AppendIn(Yield(m) + comma, Yields(ms), WordsOf(lang));
  }

  /** What stands between two words is rendered between them. */
  lemma BetweenIsRendered(open: seq<Token>, inner: seq<Token>, close: Token, ts: seq<Token>)
    requires ts == open + inner + [close]
    ensures Render(ts) == Render(open) + Render(inner) + (TokenText(close) + " ")
  {
    RenderAppend(open + inner, [close]);
    RenderAppend(open, inner);
    RenderOne(close);
  }

  lemma BetweenIsIn(open: seq<Token>, inner: seq<Token>, close: Token, w: Words)
    requires AllIn(open, w) && AllIn(inner, w) && TokenIn(close, w)
    ensures AllIn(open + inner + [close], w)
  {
    AppendIn(open, inner, w);
    AppendIn(open + inner, [close], w);
  }

  /** A name before parentheses calls the function of that name with what stands between them. */
  lemma CallLaw(lang: Lang, f: string, args: seq<Node>, text: string)
    requires Known(lang) && IsWordName(f) && AllPrintable(lang, args)
    requires text == f + " ( " + Commas(lang, args) + ") "
    ensures ParseExprF(lang, text).Ok? ==> ParseExprF(lang, text) == Ok(Call(f, args))
  {
    var cs := Trees(lang, args);
    CommasSpell(lang, args);
    NameIsRead(lang, f);
    var open := [TIdent(f), TLParen];
    CallOpens(f, open);
    BetweenIsRendered(open, Yields(cs), TRParen, Yield(CCall(f, cs)));
    BetweenIsIn(open, Yields(cs), TRParen, WordsOf(lang));
    assert ")" + " " == ") ";
    RenderedIsRead(lang, CCall(f, cs), text);
  }

  lemma CallOpens(f: string, open: seq<Token>)
    requires open == [TIdent(f), TLParen]
    ensures Render(open) == f + " ( "
  {
    assert open == [TIdent(f)] + [TLParen];
    RenderAppend([TIdent(f)], [TLParen]);
    RenderOne(TIdent(f));
    RenderOne(TLParen);
    assert f + " " + ("(" + " ") == f + " ( ";
  }

  /** What stands between brackets is a list. */
  lemma ListLaw(lang: Lang, elems: seq<Node>, text: string)
    requires Known(lang) && AllPrintable(lang, elems) && text == "[ " + Commas(lang, elems) + "] "
    ensures ParseExprF(lang, text).Ok? ==> ParseExprF(lang, text) == Ok(ListLit(elems))
  {
    var cs := Trees(lang, elems);
    CommasSpell(lang, elems);
    BetweenIsRendered([TLBracket], Yields(cs), TRBracket, Yield(CList(cs)));
    RenderOne(TLBracket);
    BetweenIsIn([TLBracket], Yields(cs), TRBracket, WordsOf(lang));
    assert "[" + " " == "[ " && "]" + " " == "] ";
    RenderedIsRead(lang, CList(cs), text);
  }

  // ----- What the names stand for -----

  lemma ImageNames(lib: Library, inp: Input)
    ensures Is(lib, inp, Ident("registry"), Str(inp.image.registry))
    ensures Is(lib, inp, Ident("repository"), Str(inp.image.repository))
    ensures Is(lib, inp, Ident("tag"), Str(inp.image.tag))
    ensures Is(lib, inp, Ident("digest"), Str(inp.image.digest))
    ensures Is(lib, inp, Ident("image_ref"), Str(inp.image.reference))
    ensures Is(lib, inp, Ident("digest_pinned"), Bool(inp.image.digest != ""))
    ensures Is(lib, inp, Ident("signed"), Bool(inp.attest.Some? && inp.attest.value.signed))
  {}

  lemma WorkloadNames(lib: Library, inp: Input)
    ensures Is(lib, inp, Ident("workload_present"), Bool(inp.workload.present))
    ensures Is(lib, inp, Ident("privileged"), Bool(inp.workload.privileged))
    ensures Is(lib, inp, Ident("runs_as_root"), Bool(inp.workload.runAsRoot))
    ensures Is(lib, inp, Ident("host_network"), Bool(inp.workload.hostNetwork))
  {}

  lemma PodNames(lib: Library, inp: Input)
    ensures Is(lib, inp, Ident("host_pid"), Bool(inp.workload.hostPid))
    ensures Is(lib, inp, Ident("host_ipc"), Bool(inp.workload.hostIpc))
    ensures Is(lib, inp, Ident("read_only_root_fs"), Bool(inp.workload.readOnlyRootFs))
    ensures Is(lib, inp, Ident("allow_privilege_escalation"), Bool(inp.workload.allowPrivilegeEscalation))
    ensures Is(lib, inp, Ident("uses_host_path"), Bool(inp.workload.usesHostPath))
  {}

  /** The positions of the findings that satisfy p. */
  ghost function Positions(fs: seq<Finding>, p: Finding -> bool): set<int>
  {
    set i | 0 <= i < |fs| && p(fs[i])
  }

  lemma {:induction false} CountIsSize(fs: seq<Finding>, p: Finding -> bool)
    ensures Count(fs, p) == |Positions(fs, p)|
    decreases |fs|
  {
    if fs != [] {
      var init, last := fs[..|fs| - 1], |fs| - 1;
      CountIsSize(init, p);
      assert Positions(fs, p) == Positions(init, p) + if p(fs[last]) then {last} else {};
    }
  }

  lemma FindingNames(lib: Library, inp: Input)
    ensures Is(lib, inp, Ident("finding_count"), Num(|inp.findings| as real))
    ensures exists s :: 0 <= s && (forall f :: f in inp.findings ==> f.severity <= s) &&
              (s == 0 || exists f :: f in inp.findings && f.severity == s) &&
              Is(lib, inp, Ident("max_severity"), Str(SeverityText(s)))
  {
    MaxSeverityIsMax(inp.findings);
    assert Is(lib, inp, Ident("max_severity"), Str(SeverityText(MaxSeverityF(inp.findings))));
  }

  /** The names of the five severities, and of none. */
  function SeverityText(s: int): string
  {
    if s == 5 then "CRITICAL"
    else if s == 4 then "HIGH"
    else if s == 3 then "MEDIUM"
    else if s == 2 then "LOW"
    else if s == 1 then "INFO"
    else "UNKNOWN"
  }

  // ----- What the functions compute -----

  /** A list has the values of its elements. */
  lemma {:induction false} ListIs(lib: Library, inp: Input, es: seq<Node>, vs: seq<Value>)
    requires |es| == |vs| && forall i :: 0 <= i < |es| ==> Is(lib, inp, es[i], vs[i])
    ensures EvalListF(lib, inp, es) == All(vs) && Is(lib, inp, ListLit(es), List(vs))
    decreases |es|
  {
    if es != [] {
      var n := |es| - 1;
      ListIs(lib, inp, es[..n], vs[..n]);
      assert Is(lib, inp, es[n], vs[n]);
      assert vs == vs[..n] + [vs[n]];
    }
  }

  lemma CallOne(lib: Library, inp: Input, f: string, a: Node, s: string)
    requires Is(lib, inp, a, Str(s)) && Arity(f) == Some(1)
    ensures EvalF(lib, inp, Call(f, [a])) == ApplyToText(lib, inp, f, s)
  {
    assert [a][..0] == [] && EvalListF(lib, inp, []) == All([]);
    assert [] + [Str(s)] == [Str(s)];
    assert EvalListF(lib, inp, [a]) == All([Str(s)]);
  }

  lemma CallTwo(lib: Library, inp: Input, f: string, a: Node, b: Node, v: Value, w: Value)
    requires Is(lib, inp, a, v) && Is(lib, inp, b, w) && Arity(f) == Some(2)
    ensures EvalF(lib, inp, Call(f, [a, b])) == Apply(lib, inp, f, [v, w])
  {
    assert [a, b][..1] == [a] && [a][..0] == [];
    assert EvalListF(lib, inp, []) == All([]);
    assert [] + [v] == [v] && [v] + [w] == [v, w];
    assert EvalListF(lib, inp, [a]) == All([v]);
    assert EvalListF(lib, inp, [a, b]) == All([v, w]);
  }

  /** The functions that look something up. */
  lemma LookupCalls(lib: Library, inp: Input, a: Node, s: string)
    requires Is(lib, inp, a, Str(s))
    ensures Is(lib, inp, Call("has_rule", [a]), Bool(exists f :: f in inp.findings && f.ruleId == s))
    ensures Is(lib, inp, Call("verified", [a]), Bool(inp.attest.Some? && s in inp.attest.value.predicates))
    ensures Is(lib, inp, Call("has_package", [a]), Bool(s in inp.packages))
  {
    CallOne(lib, inp, "has_rule", a, s);
    CallOne(lib, inp, "verified", a, s);
    CallOne(lib, inp, "has_package", a, s);
  }

  /** Those that compare under case folding, and lower itself. */
  lemma FoldingCalls(lib: Library, inp: Input, a: Node, s: string)
    requires Is(lib, inp, a, Str(s))
    ensures Is(lib, inp, Call("has_license", [a]), Bool(exists l :: l in inp.licenses && lib.foldEq(l, s)))
    ensures Is(lib, inp, Call("has_capability", [a]),
               Bool(exists c :: c in inp.workload.capabilities && lib.foldEq(c, s)))
    ensures Is(lib, inp, Call("lower", [a]), Str(lib.lower(s)))
  {
    CallOne(lib, inp, "has_license", a, s);
    CallOne(lib, inp, "has_capability", a, s);
    CallOne(lib, inp, "lower", a, s);
  }

  /** Those that test a pattern. */
  lemma PatternCalls(lib: Library, inp: Input, a: Node, b: Node, s: string, t: string)
    requires Is(lib, inp, a, Str(s)) && Is(lib, inp, b, Str(t))
    ensures lib.compile(s).Some? ==>
              Is(lib, inp, Call("resource_matches", [a]),
                 Bool(exists f :: f in inp.findings && lib.compile(s).value(f.resource)))
    ensures lib.compile(s).None? ==> EvalF(lib, inp, Call("resource_matches", [a])).Failed?
    ensures lib.compile(t).Some? ==> Is(lib, inp, Call("matches", [a, b]), Bool(lib.compile(t).value(s)))
    ensures lib.compile(t).None? ==> EvalF(lib, inp, Call("matches", [a, b])).Failed?
  {
    CallOne(lib, inp, "resource_matches", a, s);
    CallTwo(lib, inp, "matches", a, b, Str(s), Str(t));
  }

  /** Those that compare the ends of texts, and membership. */
  lemma EndCalls(lib: Library, inp: Input, a: Node, b: Node, s: string, t: string)
    requires Is(lib, inp, a, Str(s)) && Is(lib, inp, b, Str(t))
    ensures Is(lib, inp, Call("startswith", [a, b]), Bool(exists rest :: s == t + rest))
    ensures Is(lib, inp, Call("endswith", [a, b]), Bool(exists rest :: s == rest + t))
  {
    CallTwo(lib, inp, "startswith", a, b, Str(s), Str(t));
    CallTwo(lib, inp, "endswith", a, b, Str(s), Str(t));
    if t <= s {
      assert s == t + s[|t|..];
    }
    if |t| <= |s| && s[|s| - |t|..] == t {
      assert s == s[..|s| - |t|] + t;
    }
    forall rest | s == rest + t
      ensures |t| <= |s| && s[|s| - |t|..] == t
    {}
  }

  lemma MembershipCall(lib: Library, inp: Input, a: Node, b: Node, v: Value, vs: seq<Value>)
    requires Is(lib, inp, a, v) && Is(lib, inp, b, List(vs))
    ensures Is(lib, inp, Call("in", [a, b]), Bool(v in vs))
  {
    CallTwo(lib, inp, "in", a, b, v, List(vs));
  }

  /** The functions that count findings. */
  lemma ModuleCount(lib: Library, inp: Input, a: Node, s: string)
    requires Is(lib, inp, a, Str(s))
    ensures Is(lib, inp, Call("module_count", [a]),
               Num(|Positions(inp.findings, (f: Finding) => f.moduleName == s)| as real))
  {
    CallOne(lib, inp, "module_count", a, s);
    var p := (f: Finding) => f.moduleName == s;
    CountIsSize(inp.findings, p);
    assert Positions(inp.findings, p) == Positions(inp.findings, (f: Finding) => f.moduleName == s);
  }

  /** Blanks around a word. */
  predicate AllBlank(s: string)
  {
    forall i :: 0 <= i < |s| ==> s[i] == ' ' || s[i] == '\t' || s[i] == '\n'
  }

  lemma {:induction false} FrontIsTrimmed(front: string, t: string, s: string)
    requires AllBlank(front) && s == front + t && (t == "" || !IsSpace(t[0]))
    ensures TrimLeft(s) == t
    decreases |front|
  {
    if front == "" {
      assert s == t;
    } else {
      assert s[1..] == front[1..] + t && s[0] == front[0];
      FrontIsTrimmed(front[1..], t, s[1..]);
    }
  }

  lemma {:induction false} BackIsTrimmed(t: string, back: string, s: string)
    requires AllBlank(back) && s == t + back && (t == "" || !IsSpace(t[|t| - 1]))
    ensures TrimRight(s) == t
    decreases |back|
  {
    if back == "" {
      assert s == t;
    } else {
      assert s[..|s| - 1] == t + back[..|back| - 1] && s[|s| - 1] == back[|back| - 1];
      BackIsTrimmed(t, back[..|back| - 1], s[..|s| - 1]);
    }
  }

  /** The five severities in their order, and none. */
  predicate HasRank(name: string, k: int)
  {
    if name == "CRITICAL" then k == 5
    else if name == "HIGH" then k == 4
    else if name == "MEDIUM" then k == 3
    else if name == "LOW" then k == 2
    else if name == "INFO" then k == 1
    else k == 0
  }

  /** The severity a text names, blanks around it aside and in any letter case the library folds:
      five names, and no severity otherwise. */
  ghost predicate NamesSeverity(lib: Library, s: string, k: int)
  {
    exists front, t, back :: IsPadded(s, front, t, back) && HasRank(lib.upper(t), k)
  }

  predicate IsPadded(s: string, front: string, t: string, back: string)
  {
    s == front + (t + back) && AllBlank(front) && AllBlank(back) && t != "" && !IsSpace(t[0]) && !IsSpace(t[|t| - 1])
  }

  lemma PaddingIsTrimmed(s: string, front: string, t: string, back: string)
    requires IsPadded(s, front, t, back)
    ensures TrimRight(TrimLeft(s)) == t
  {
    FrontIsTrimmed(front, t + back, s);
    BackIsTrimmed(t, back, t + back);
  }

  lemma SeverityIsParsed(lib: Library, s: string, k: int)
    requires NamesSeverity(lib, s, k)
    ensures ParseSeverity(lib, s) == k
  {
    var front, t, back :| IsPadded(s, front, t, back) && HasRank(lib.upper(t), k);
    PaddingIsTrimmed(s, front, t, back);
  }

  /** Findings of a named severity, and at or above it; of no severity none are counted. */
  lemma SeverityCounts(lib: Library, inp: Input, a: Node, s: string, k: int)
    requires Is(lib, inp, a, Str(s)) && NamesSeverity(lib, s, k)
    ensures Is(lib, inp, Call("severity_count", [a]),
               Num(|Positions(inp.findings, (f: Finding) => k > 0 && f.severity == k)| as real))
    ensures Is(lib, inp, Call("severity_atleast", [a]),
               Num(|Positions(inp.findings, (f: Finding) => k > 0 && f.severity >= k)| as real))
  {
    SeverityIsParsed(lib, s, k);
    CallOne(lib, inp, "severity_count", a, s);
    CallOne(lib, inp, "severity_atleast", a, s);
    var same, above := CountedBySeverity(k, false), CountedBySeverity(k, true);
    CountIsSize(inp.findings, same);
    CountIsSize(inp.findings, above);
    assert Positions(inp.findings, same) == Positions(inp.findings, (f: Finding) => k > 0 && f.severity == k);
    assert Positions(inp.findings, above) == Positions(inp.findings, (f: Finding) => k > 0 && f.severity >= k);
  }

  // ----- What the compile-time check lets pass -----

  /** A name passes exactly when it is one of the variables, and then it has a value. */
  lemma NamePasses(lib: Library, inp: Input, s: string)
    ensures Check(lib, Ident(s)).None? <==> IsVariable(s)
    ensures EvalF(lib, inp, Ident(s)).Got? <==> IsVariable(s)
  {}

  predicate IsVariable(s: string)
  {
    s in ["signed", "digest_pinned", "registry", "repository", "tag", "digest", "image_ref", "finding_count",
          "max_severity", "workload_present", "privileged", "runs_as_root", "host_network", "host_pid", "host_ipc",
          "read_only_root_fs", "allow_privilege_escalation", "uses_host_path"]
  }

  /** A function with its number of arguments. */
  predicate IsFunction(f: string, n: nat)
  {
    || (n == 1 && f in ["severity_count", "severity_atleast", "has_rule", "module_count", "resource_matches", "verified",
                        "has_license", "has_package", "has_capability", "lower"])
    || (n == 2 && f in ["in", "matches", "startswith", "endswith"])
  }

  /** A literal text in a pattern's place is one the library compiles. */
  predicate PatternsCompile(lib: Library, f: string, args: seq<Node>)
  {
    && (f == "resource_matches" && |args| == 1 && args[0].Lit? && args[0].v.Str? ==> lib.compile(args[0].v.s).Some?)
    && (f == "matches" && |args| == 2 && args[1].Lit? && args[1].v.Str? ==> lib.compile(args[1].v.s).Some?)
  }

  /** A call passes exactly when it names a function with that many arguments, its literal
      patterns compile and its arguments pass. */
  lemma CallPasses(lib: Library, f: string, args: seq<Node>)
    ensures Check(lib, Call(f, args)).None? <==>
              IsFunction(f, |args|) && PatternsCompile(lib, f, args) && forall a :: a in args ==> Check(lib, a).None?
  {
    CheckAllIsEach(lib, args);
    NodePasses(lib, f, args);
  }

  lemma NodePasses(lib: Library, f: string, args: seq<Node>)
    ensures CheckNode(lib, Call(f, args)).None? <==> IsFunction(f, |args|) && PatternsCompile(lib, f, args)
  {}
}
