/** The escalation report: where the search starts, what it reports for each start, and what
    adding bindings does to the report. */
module RbacReport {
  import opened Lists
  import opened RbacEscalation
  import opened RbacGraph
  import opened RbacSearch
  import opened SortedText
  import opened Text

  // ----- Starts -----

  /** Where a chain starts, as the report calls it, and the identity it starts with. */
  datatype StartPoint = StartPoint(origin: string, key: string)

  /** The identity the pod runs as. */
  function PodKey(p: Pod): string
  {
    Subject("ServiceAccount", if p.serviceAccount == "" then "default" else p.serviceAccount, p.ns).Key()
  }

  function PodStart(p: Pod): StartPoint
  {
    StartPoint("Pod " + p.ns + "/" + p.name + " (as " + PodKey(p) + ")", PodKey(p))
  }

  function AccountStart(key: string): StartPoint
  {
    StartPoint(AccountName(key), key)
  }

  ghost predicate BacksPod(c: Cluster, key: string)
  {
    exists p :: p in c.pods && PodKey(p) == key
  }

  /** A bound service account that backs no pod. */
  ghost predicate IsLatent(c: Cluster, grants: seq<Grant>, st: StartPoint)
  {
    IsServiceAccount(grants, st.key) && !BacksPod(c, st.key) && st == AccountStart(st.key)
  }

  /** Every pod is a start, and every service account that backs none. */
  ghost predicate IsStart(c: Cluster, grants: seq<Grant>, st: StartPoint)
  {
    || (exists p :: p in c.pods && st == PodStart(p))
    || IsLatent(c, grants, st)
  }

  predicate OriginLess(a: StartPoint, b: StartPoint)
  {
    TextLess(a.origin, b.origin)
  }

  lemma OriginsRank()
    ensures Ranks(OriginLess)
  {
    TextRanks();
  }

  /** One start for every pod. */
  method PodStarts(c: Cluster) returns (starts: seq<StartPoint>)
    ensures multiset(starts) == multiset(Map(c.pods, PodStart))
  {
    starts := [];
    for i := 0 to |c.pods|
      invariant starts == Map(c.pods[..i], PodStart)
    {
      starts := starts + [PodStart(c.pods[i])];
    }
    assert c.pods[..|c.pods|] == c.pods;
    SortPermutes(starts, OriginLess);
    starts := StableSort(starts, OriginLess);
  }

  lemma PodStartMembers(c: Cluster, starts: seq<StartPoint>)
    requires multiset(starts) == multiset(Map(c.pods, PodStart))
    ensures forall st :: st in starts <==> exists p :: p in c.pods && st == PodStart(p)
  {
    forall st
      ensures st in starts <==> exists p :: p in c.pods && st == PodStart(p)
    {
      assert st in starts <==> st in multiset(starts);
      assert st in Map(c.pods, PodStart) <==> st in multiset(Map(c.pods, PodStart));
      if p :| p in c.pods && st == PodStart(p) {
        var i :| 0 <= i < |c.pods| && c.pods[i] == p;
        assert Map(c.pods, PodStart)[i] == st;
      }
    }
  }

  method AccountStarts(grants: seq<Grant>) returns (starts: seq<StartPoint>)
    ensures forall st :: st in starts <==> IsServiceAccount(grants, st.key) && st == AccountStart(st.key)
    ensures NoRepeats(starts)
  {
    starts := [];
    var _, accounts := SubjectKeys(grants);
    accounts := SortStrings(accounts);
    for i := 0 to |accounts|
      invariant forall st :: st in starts <==> st.key in accounts[..i] && st == AccountStart(st.key)
      invariant NoRepeats(starts)
    {
      assert accounts[..i + 1] == accounts[..i] + [accounts[i]];
      TextLessIsTotal(accounts[i], accounts[i]);
      assert accounts[i] !in accounts[..i];
      starts := starts + [AccountStart(accounts[i])];
    }
    assert accounts[..|accounts|] == accounts;
  }

  /** The starts of the search, ordered by origin: one for every pod, and one for every bound
      service account that backs none. */
  method Starts(c: Cluster, grants: seq<Grant>) returns (starts: seq<StartPoint>, ghost latent: set<StartPoint>)
    ensures multiset(starts) == multiset(Map(c.pods, PodStart)) + multiset(latent)
    ensures forall st :: st in latent <==> IsLatent(c, grants, st)
    ensures forall st :: st in starts <==> IsStart(c, grants, st)
    ensures InOrder(starts, OriginLess)
  {
    var pods := PodStarts(c);
    PodStartMembers(c, pods);
    var covered := set st | st in pods :: st.key;
    forall key
      ensures key in covered <==> BacksPod(c, key)
    {
      if BacksPod(c, key) {
        var p :| p in c.pods && PodKey(p) == key;
        assert PodStart(p) in pods;
      }
    }
    var accounts := AccountStarts(grants);
    var rest;
    rest, latent := Uncovered(accounts, covered);
    starts := pods + rest;
    OriginsRank();
    SortInOrder(starts, OriginLess);
    SortMembers(starts, OriginLess);
    SortPermutes(starts, OriginLess);
    starts := StableSort(starts, OriginLess);
  }

  /** The starts whose key is not covered yet, each key once. */
  method Uncovered(all: seq<StartPoint>, covered0: set<string>) returns (rest: seq<StartPoint>, ghost kept: set<StartPoint>)
    requires NoRepeats(all) && forall st :: st in all ==> st == AccountStart(st.key)
    ensures multiset(rest) == multiset(kept)
    ensures forall st :: st in kept <==> st in all && st.key !in covered0
    ensures forall st :: st in rest <==> st in kept
  {
    rest, kept := [], {};
    var covered := covered0;
    for i := 0 to |all|
      invariant multiset(rest) == multiset(kept)
      invariant forall st :: st in kept <==> st in all[..i] && st.key !in covered0
      invariant forall key :: key in covered <==> key in covered0 || exists st :: st in all[..i] && st.key == key
    {
      assert all[..i + 1] == all[..i] + [all[i]];
      assert all[i] in all;
      assert forall st :: st in all[..i] ==> st in all;
      assert all[i] !in all[..i];
      if all[i].key !in covered {
        rest := rest + [all[i]];
        kept := kept + {all[i]};
        covered := covered + {all[i].key};
      }
    }
    assert all[..|all|] == all;
    assert forall st :: st in rest <==> st in multiset(rest);
  }

  // ----- Findings -----

  const RULE := "DS-RAT-RBAC-014"

  function TargetName(t: string): string
  {
    if t == CLUSTER_ADMIN then "cluster-admin" else if t == NODE_ROOT then "node-root" else AccountName(t)
  }

  datatype Finding = Finding(start: StartPoint, path: seq<Edge>, target: string)
  {
    function Title(): string
    {
      "Privilege-escalation path from " + start.origin + " to " + TargetName(target)
    }

    /** What repeated findings have in common. */
    function Identity(): string
    {
      RULE + ['|'] + (start.key + ['|'] + (TargetName(target) + ['|'] + Title()))
    }
  }

  /** f reports a nearest escalation of this start. */
  ghost predicate Reports(adj: Edges, st: StartPoint, f: Finding)
  {
    f.start == st && IsNearest(adj, st.key, f.path) && f.target == f.path[|f.path| - 1].to
  }

  function IdentityOf(): Finding -> string
  {
    (f: Finding) => f.Identity()
  }

  predicate FindingLess(a: Finding, b: Finding)
  {
    OriginLess(a.start, b.start)
  }

  ghost predicate CanEscalate(adj: Edges, key: string)
  {
    exists w :: Escalates(adj, key, w)
  }

  /** The report has a nearest escalation of this start, or one that repeats it. */
  ghost predicate Reported(adj: Edges, st: StartPoint, out: seq<Finding>)
  {
    exists f :: Reports(adj, st, f) && Repeats(out, f, IdentityOf())
  }

  /** The findings are one of every identity: for every start from which something escalates a
      nearest escalation, and nothing else, ordered by origin. */
  ghost predicate IsReport(c: Cluster, grants: seq<Grant>, adj: Edges, out: seq<Finding>)
  {
    && (forall f :: f in out ==> IsStart(c, grants, f.start) && Reports(adj, f.start, f))
    && (forall st :: IsStart(c, grants, st) && CanEscalate(adj, st.key) ==> Reported(adj, st, out))
    && NoRepeats(Map(out, IdentityOf()))
    && InOrder(out, FindingLess)
  }

  /** The search from one start. */
  method SearchFrom(adj: Edges, st: StartPoint) returns (found: seq<Finding>)
    ensures found == [] ==> !CanEscalate(adj, st.key)
    ensures found != [] ==> |found| == 1 && Reports(adj, st, found[0])
  {
    var path, target := BfsToTarget(adj, st.key);
    found := if target == "" then [] else [Finding(st, path, target)];
  }

  /** The reports of a start, and the starts that have one, as relations. */
  ghost function ReportsIn(adj: Edges): (StartPoint, Finding) -> bool
  {
    (st, f) => Reports(adj, st, f)
  }

  ghost function EscalatesIn(adj: Edges): StartPoint -> bool
  {
    (st: StartPoint) => CanEscalate(adj, st.key)
  }

  /** These findings are reports of these starts, of every one that has any. */
  ghost predicate Searched(starts: seq<StartPoint>, all: seq<Finding>, reports: (StartPoint, Finding) -> bool,
      escalates: StartPoint -> bool)
  {
    && (forall f :: f in all ==> f.start in starts && reports(f.start, f))
    && (forall st :: st in starts && escalates(st) ==> exists f :: f in all && reports(st, f))
  }

  lemma SearchedOneMore(starts: seq<StartPoint>, st: StartPoint, now: seq<StartPoint>, earlier: seq<Finding>,
      found: seq<Finding>, all: seq<Finding>, reports: (StartPoint, Finding) -> bool, escalates: StartPoint -> bool)
    requires now == starts + [st] && all == earlier + found && Searched(starts, earlier, reports, escalates)
    requires found == [] ==> !escalates(st)
    requires found != [] ==> |found| == 1 && found[0].start == st && reports(st, found[0])
    ensures Searched(now, all, reports, escalates)
  {
    forall s | s in now && escalates(s)
      ensures exists f :: f in all && reports(s, f)
    {
      if s in starts {
        var f :| f in earlier && reports(s, f);
        assert f in all;
      } else {
        assert found[0] in all;
      }
    }
  }

  lemma InOrderStill(starts: seq<StartPoint>, i: nat, earlier: seq<Finding>, found: seq<Finding>, all: seq<Finding>)
    requires i < |starts| && InOrder(starts, OriginLess) && InOrder(earlier, FindingLess) && all == earlier + found
    requires (forall f :: f in earlier ==> f.start in starts[..i]) && |found| <= 1
    requires found != [] ==> found[0].start == starts[i]
    ensures InOrder(all, FindingLess)
  {
    forall k | 0 <= k < |earlier|
      ensures !OriginLess(starts[i], earlier[k].start)
    {
      assert earlier[k] in earlier;
      var j :| 0 <= j < i && starts[j] == earlier[k].start;
    }
  }

  /** The search from every start, in their order. */
  method SearchAll(adj: Edges, starts: seq<StartPoint>) returns (all: seq<Finding>)
    requires InOrder(starts, OriginLess)
    ensures Searched(starts, all, ReportsIn(adj), EscalatesIn(adj)) && InOrder(all, FindingLess)
  {
    all := [];
    for i := 0 to |starts|
      invariant Searched(starts[..i], all, ReportsIn(adj), EscalatesIn(adj)) && InOrder(all, FindingLess)
    {
      var found := SearchFrom(adj, starts[i]);
      ghost var earlier := all;
      all := all + found;
      InOrderStill(starts, i, earlier, found, all);
      SearchedOneMore(starts[..i], starts[i], starts[..i + 1], earlier, found, all, ReportsIn(adj), EscalatesIn(adj));
    }
    assert starts[..|starts|] == starts;
  }

  /** checkEscalationPaths, with the graph and the edges it searches. */
  method CheckEscalationPaths(c: Cluster) returns (grants: seq<Grant>, adj: Edges, out: seq<Finding>)
    ensures GrantsOf(c, grants) && EdgesOf(grants, adj)
    ensures IsReport(c, grants, adj, out)
  {
    var dangling;
    grants, dangling := BuildGraph(c);
    adj := BuildEscalationEdges(grants);
    var starts, latent := Starts(c, grants);
    var all := SearchAll(adj, starts);
    out := KeepFirst(all, IdentityOf());
    FirstOfEachKeeps(all, IdentityOf(), FindingLess);
    forall st | IsStart(c, grants, st) && CanEscalate(adj, st.key)
      ensures Reported(adj, st, out)
    {
      assert st in starts && EscalatesIn(adj)(st);
      var f :| f in all && ReportsIn(adj)(st, f);
    }
  }

  // ----- Identities -----

  lemma FirstBar(a: string, rest: string, a': string, rest': string)
    requires NoBar(a) && NoBar(a') && a + ['|'] + rest == a' + ['|'] + rest'
    ensures a == a' && rest == rest'
  {
    var s := a + ['|'] + rest;
    assert s[|a|] == '|' && s[|a'|] == '|';
    assert forall i :: 0 <= i < |a| ==> s[i] == a[i];
    assert forall i :: 0 <= i < |a'| ==> s[i] == a'[i];
    assert |a| == |a'|;
    assert s[..|a|] == a && s[..|a'|] == a';
    assert s[|a| + 1..] == rest && s[|a'| + 1..] == rest';
  }

  lemma TargetNames(t: string)
    requires IsTarget(t)
    ensures NoBar(TargetName(t)) && (t == CLUSTER_ADMIN <==> |TargetName(t)| == 13)
  {}

  /** A start whose origin has no bar has an identity without one. */
  lemma StartKeyHasNoBar(c: Cluster, grants: seq<Grant>, st: StartPoint)
    requires IsStart(c, grants, st) && NoBar(st.origin)
    ensures NoBar(st.key)
  {
    if p :| p in c.pods && st == PodStart(p) {
      var front := "Pod " + p.ns + "/" + p.name + " (as ";
      assert st.origin == front + st.key + ")";
      assert forall i :: 0 <= i < |st.key| ==> st.origin[|front| + i] == st.key[i];
    } else {
      var prefix := "ServiceAccount/";
      if prefix <= st.key {
        assert st.key == prefix + st.origin;
        assert NoBar(prefix);
      }
    }
  }

  /** Among starts without bars only findings of one start and target repeat each other. */
  lemma IdentityIsExact(f: Finding, g: Finding)
    requires NoBar(f.start.key) && NoBar(g.start.key) && IsTarget(f.target) && IsTarget(g.target)
    requires f.Identity() == g.Identity()
    ensures f.start == g.start && f.target == g.target
  {
    TargetNames(f.target);
    TargetNames(g.target);
    var tailF, tailG := TargetName(f.target) + ['|'] + f.Title(), TargetName(g.target) + ['|'] + g.Title();
    assert NoBar(RULE);
    FirstBar(RULE, f.start.key + ['|'] + tailF, RULE, g.start.key + ['|'] + tailG);
    FirstBar(f.start.key, tailF, g.start.key, tailG);
    FirstBar(TargetName(f.target), f.Title(), TargetName(g.target), g.Title());
    var front, back := "Privilege-escalation path from ", " to " + TargetName(f.target);
    assert f.Title() == front + f.start.origin + back && g.Title() == front + g.start.origin + back;
    assert |f.start.origin| == |g.start.origin|;
    assert f.start.origin == f.Title()[|front|..|front| + |f.start.origin|];
    assert g.start.origin == g.Title()[|front|..|front| + |g.start.origin|];
  }

  // ----- Adding bindings -----

  lemma StartsStay(c: Cluster, c': Cluster, gs: seq<Grant>, gs': seq<Grant>, st: StartPoint)
    requires MoreBindings(c, c') && c'.pods == c.pods && GrantsOf(c, gs) && GrantsOf(c', gs')
    requires IsStart(c, gs, st)
    ensures IsStart(c', gs', st)
  {
    MoreGrants(c, c', gs, gs');
  }

  lemma NoLonger(adj: Edges, f: Finding, out: seq<Finding>) returns (g: Finding)
    requires Reported(adj, f.start, out) && Escalates(adj, f.start.key, f.path)
    ensures Reports(adj, f.start, g) && Repeats(out, g, IdentityOf()) && |g.path| <= |f.path|
  {
    g :| Reports(adj, f.start, g) && Repeats(out, g, IdentityOf());
  }

  lemma Repeated(out: seq<Finding>, g: Finding) returns (h: Finding)
    requires Repeats(out, g, IdentityOf())
    ensures h in out && h.Identity() == g.Identity()
  {
    var i :| 0 <= i < |out| && IdentityOf()(out[i]) == IdentityOf()(g);
    h := out[i];
  }

  lemma StillReported(c: Cluster, c': Cluster, gs: seq<Grant>, gs': seq<Grant>, adj: Edges, adj': Edges,
      out': seq<Finding>, f: Finding)
    requires MoreBindings(c, c') && c'.pods == c.pods && GrantsOf(c, gs) && GrantsOf(c', gs')
    requires EdgesOf(gs, adj) && EdgesOf(gs', adj') && IsReport(c', gs', adj', out')
    requires IsStart(c, gs, f.start) && Escalates(adj, f.start.key, f.path)
    ensures Reported(adj', f.start, out') && Escalates(adj', f.start.key, f.path)
  {
    AddingBindingsOnlyAdds(c, c', gs, gs', adj, adj', f.start.key);
    StartsStay(c, c', gs, gs', f.start);
    assert Escalates(adj', f.start.key, f.path);
    assert CanEscalate(adj', f.start.key);
  }

  lemma ReportsTarget(adj: Edges, st: StartPoint, f: Finding)
    requires Reports(adj, st, f)
    ensures IsTarget(f.target)
  {}

  /** Among starts without bars only findings of one start repeat each other. */
  lemma SameStart(c: Cluster, grants: seq<Grant>, g: Finding, h: Finding)
    requires IsStart(c, grants, g.start) && IsStart(c, grants, h.start) && h.Identity() == g.Identity()
    requires NoBar(g.start.origin) && NoBar(h.start.origin) && IsTarget(g.target) && IsTarget(h.target)
    ensures h.start == g.start
  {
    StartKeyHasNoBar(c, grants, g.start);
    StartKeyHasNoBar(c, grants, h.start);
    IdentityIsExact(h, g);
  }

  /** A nearest escalation of a start is no longer than another one. */
  lemma SameLength(adj: Edges, g: Finding, h: Finding)
    requires Reports(adj, g.start, g) && Reports(adj, h.start, h) && h.start == g.start
    ensures |h.path| <= |g.path|
  {}

  ghost predicate NoOriginHasBar(c: Cluster, grants: seq<Grant>)
  {
    forall st :: IsStart(c, grants, st) ==> NoBar(st.origin)
  }

  /** With more bindings every start that was reported is still reported, with a path no longer
      than before: under an identity that it may share with another start, and under its own
      when no origin contains a bar. */
  lemma ReportKeepsEveryStart(c: Cluster, c': Cluster, gs: seq<Grant>, gs': seq<Grant>, adj: Edges, adj': Edges,
      out: seq<Finding>, out': seq<Finding>, f: Finding) returns (g: Finding, h: Finding)
    requires MoreBindings(c, c') && c'.pods == c.pods && GrantsOf(c, gs) && GrantsOf(c', gs')
    requires EdgesOf(gs, adj) && EdgesOf(gs', adj')
    requires IsReport(c, gs, adj, out) && IsReport(c', gs', adj', out') && f in out
    ensures Reports(adj', f.start, g) && |g.path| <= |f.path|
    ensures h in out' && h.Identity() == g.Identity()
    ensures NoOriginHasBar(c', gs') ==> Reports(adj', f.start, h) && |h.path| <= |f.path|
  {
    assert IsStart(c, gs, f.start) && Reports(adj, f.start, f);
    StillReported(c, c', gs, gs', adj, adj', out', f);
    g := NoLonger(adj', f, out');
    h := Repeated(out', g);
    assert IsStart(c', gs', h.start) && Reports(adj', h.start, h);
    if NoOriginHasBar(c', gs') {
      StartsStay(c, c', gs, gs', f.start);
      ReportsTarget(adj', f.start, g);
      ReportsTarget(adj', h.start, h);
      SameStart(c', gs', g, h);
      SameLength(adj', g, h);
    }
  }
}
