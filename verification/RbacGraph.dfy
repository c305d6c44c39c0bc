/** The resolved permission graph: bindings become grants, grants become permission atoms, and
    the two directions of access review answer from the same grants. */
module RbacGraph {
  import opened Lists
  import opened Options
  import opened SortedText
  import opened Text

  datatype PolicyRule = PolicyRule(apiGroups: seq<string>, resources: seq<string>, verbs: seq<string>,
                                   nonResourceURLs: seq<string>)

  datatype Role = Role(name: string, clusterScoped: bool, rules: seq<PolicyRule>)

  datatype Subject = Subject(kind: string, name: string, ns: string)
  {
    function Key(): string
    {
      if kind == "ServiceAccount" then "ServiceAccount/" + ns + "/" + name else kind + "/" + name
    }
  }

  datatype Binding = Binding(ns: string, clusterScoped: bool, subjects: seq<Subject>, refKind: string, refName: string)

  datatype Pod = Pod(ns: string, name: string, serviceAccount: string)

  datatype Cluster = Cluster(roles: map<string, Role>, bindings: seq<Binding>, pods: seq<Pod>)

  datatype Grant = Grant(subject: Subject, role: Role, ns: string)

  datatype Permission = Permission(verb: string, apiGroup: string, resource: string, ns: string)

  // ----- Resolution -----

  function RoleKey(clusterScoped: bool, ns: string, name: string): string
  {
    if clusterScoped then "ClusterRole/" + name else "Role/" + ns + "/" + name
  }

  function Lookup(roles: map<string, Role>, key: string): Option<Role>
  {
    if key in roles then Some(roles[key]) else None
  }

  function ResolveRole(c: Cluster, b: Binding): Option<Role>
  {
    if b.refKind == "ClusterRole" then Lookup(c.roles, RoleKey(true, "", b.refName))
    else if b.refKind == "Role" then Lookup(c.roles, RoleKey(false, b.ns, b.refName))
    else
      var own := Lookup(c.roles, RoleKey(false, b.ns, b.refName));
      if own.Some? then own else Lookup(c.roles, RoleKey(true, "", b.refName))
  }

  function GrantScope(b: Binding): string
  {
    if b.clusterScoped then "" else b.ns
  }

  /** gr comes from some binding of the cluster. */
  ghost predicate Granted(c: Cluster, gr: Grant)
  {
    exists b :: b in c.bindings && gr.subject in b.subjects && ResolveRole(c, b) == Some(gr.role) && gr.ns == GrantScope(b)
  }

  /** The grants of one binding, in the order of its subjects. */
  function GrantsOfBinding(b: Binding, role: Role): seq<Grant>
  {
    Map(b.subjects, (s: Subject) => Grant(s, role, GrantScope(b)))
  }

  /** The grants of these bindings, in their order. */
  function AllGrants(c: Cluster, bindings: seq<Binding>): seq<Grant>
  {
    if bindings == [] then []
    else
      var b := bindings[|bindings| - 1];
      var role := ResolveRole(c, b);
      AllGrants(c, bindings[..|bindings| - 1]) + if role.Some? then GrantsOfBinding(b, role.value) else []
  }

  predicate GrantLess(a: Grant, b: Grant)
  {
    if a.subject.Key() != b.subject.Key() then TextLess(a.subject.Key(), b.subject.Key())
    else TextLess(a.role.name, b.role.name)
  }

  function Dangles(c: Cluster): Binding -> bool
  {
    (b: Binding) => ResolveRole(c, b).None?
  }

  /** buildGraph: the grants of all resolvable bindings by subject and role, ties in the order
      of the bindings, and the bindings that dangle. */
  method BuildGraph(c: Cluster) returns (grants: seq<Grant>, dangling: seq<Binding>)
    ensures grants == StableSort(AllGrants(c, c.bindings), GrantLess)
    ensures forall gr :: gr in grants <==> Granted(c, gr)
    ensures dangling == Filter(c.bindings, Dangles(c))
  {
    grants, dangling := [], [];
    for i := 0 to |c.bindings|
      invariant grants == AllGrants(c, c.bindings[..i])
      invariant dangling == Filter(c.bindings[..i], Dangles(c))
    {
      var b := c.bindings[i];
      assert c.bindings[..i + 1][..i] == c.bindings[..i];
      var role := ResolveRole(c, b);
      if role.None? {
        dangling := dangling + [b];
      } else {
        ghost var earlier := grants;
        for j := 0 to |b.subjects|
          invariant grants == earlier + GrantsOfBinding(b, role.value)[..j]
        {
          grants := grants + [Grant(b.subjects[j], role.value, GrantScope(b))];
        }
      }
    }
    assert c.bindings[..|c.bindings|] == c.bindings;
    SortMembers(grants, GrantLess);
    GrantsAreGranted(c);
    grants := StableSort(grants, GrantLess);
  }

  lemma GrantsAreGranted(c: Cluster)
    ensures forall gr :: gr in AllGrants(c, c.bindings) <==> Granted(c, gr)
  {
    forall gr
      ensures gr in AllGrants(c, c.bindings) <==> Granted(c, gr)
    {
      GrantedByOne(c, c.bindings, gr);
    }
  }

  lemma {:induction false} GrantedByOne(c: Cluster, bindings: seq<Binding>, gr: Grant)
    ensures gr in AllGrants(c, bindings) <==>
      exists b :: b in bindings && gr.subject in b.subjects && ResolveRole(c, b) == Some(gr.role) && gr.ns == GrantScope(b)
    decreases |bindings|
  {
    if bindings != [] {
      var init, last := bindings[..|bindings| - 1], bindings[|bindings| - 1];
      GrantedByOne(c, init, gr);
      assert bindings == init + [last];
      var role := ResolveRole(c, last);
      if role.Some? {
        GrantedByBinding(last, role.value, gr);
      }
    }
  }

  lemma GrantedByBinding(b: Binding, role: Role, gr: Grant)
    ensures gr in GrantsOfBinding(b, role) <==> gr.subject in b.subjects && gr.role == role && gr.ns == GrantScope(b)
  {
    var out := GrantsOfBinding(b, role);
    if gr.subject in b.subjects && gr.role == role && gr.ns == GrantScope(b) {
      var i :| 0 <= i < |b.subjects| && b.subjects[i] == gr.subject;
      assert out[i] == gr;
    }
  }

  // ----- Effective permissions -----

  const NON_RESOURCE := "nonResourceURL"

  function Defaulted(xs: seq<string>): seq<string>
  {
    if xs == [] then [""] else xs
  }

  /** p is one of the atoms of rule r in the given scope. */
  predicate AtomOf(r: PolicyRule, ns: string, p: Permission)
  {
    && p.ns == ns && p.verb in r.verbs
    && ((p.apiGroup in Defaulted(r.apiGroups) && p.resource in Defaulted(r.resources)) ||
        (p.apiGroup == NON_RESOURCE && p.resource in r.nonResourceURLs))
  }

  function ResourceAtoms(verb: string, group: string, resources: seq<string>, ns: string): seq<Permission>
  {
    Map(resources, (res: string) => Permission(verb, group, res, ns))
  }

  function GroupAtoms(verb: string, groups: seq<string>, resources: seq<string>, ns: string): seq<Permission>
  {
    if groups == [] then []
    else
      GroupAtoms(verb, groups[..|groups| - 1], resources, ns) +
      ResourceAtoms(verb, groups[|groups| - 1], resources, ns)
  }

  /** The atoms of a rule for these verbs: per verb groups by resources, then the URLs. */
  function Atoms(r: PolicyRule, verbs: seq<string>, ns: string): seq<Permission>
  {
    if verbs == [] then []
    else
      var verb := verbs[|verbs| - 1];
      Atoms(r, verbs[..|verbs| - 1], ns) + GroupAtoms(verb, Defaulted(r.apiGroups), Defaulted(r.resources), ns) +
      ResourceAtoms(verb, NON_RESOURCE, r.nonResourceURLs, ns)
  }

  lemma ResourceMembers(verb: string, group: string, resources: seq<string>, ns: string)
    ensures forall p :: p in ResourceAtoms(verb, group, resources, ns) <==>
      p.verb == verb && p.ns == ns && p.apiGroup == group && p.resource in resources
  {
    var atoms := ResourceAtoms(verb, group, resources, ns);
    forall p: Permission | p.verb == verb && p.ns == ns && p.apiGroup == group && p.resource in resources
      ensures p in atoms
    {
      var i :| 0 <= i < |resources| && resources[i] == p.resource;
      assert atoms[i] == p;
    }
  }

  lemma {:induction false} GroupMembers(verb: string, groups: seq<string>, resources: seq<string>, ns: string)
    ensures forall p :: p in GroupAtoms(verb, groups, resources, ns) <==>
      p.verb == verb && p.ns == ns && p.apiGroup in groups && p.resource in resources
    decreases |groups|
  {
    if groups != [] {
      var init, last := groups[..|groups| - 1], groups[|groups| - 1];
      assert groups == init + [last];
      GroupMembers(verb, init, resources, ns);
      ResourceMembers(verb, last, resources, ns);
    }
  }

  /** The list holds exactly the atoms of the rule. */
  lemma {:induction false} AtomsAreExact(r: PolicyRule, verbs: seq<string>, ns: string)
    ensures forall p :: p in Atoms(r, verbs, ns) <==> AtomOf(r.(verbs := verbs), ns, p)
    decreases |verbs|
  {
    if verbs != [] {
      var init, last := verbs[..|verbs| - 1], verbs[|verbs| - 1];
      assert verbs == init + [last];
      AtomsAreExact(r, init, ns);
      GroupMembers(last, Defaulted(r.apiGroups), Defaulted(r.resources), ns);
      ResourceMembers(last, NON_RESOURCE, r.nonResourceURLs, ns);
    }
  }

  /** The two inner loops of expandRule, for one verb. */
  method ExpandGroups(verb: string, groups: seq<string>, resources: seq<string>, ns: string)
    returns (out: seq<Permission>)
    ensures out == GroupAtoms(verb, groups, resources, ns)
  {
    out := [];
    for j := 0 to |groups|
      invariant out == GroupAtoms(verb, groups[..j], resources, ns)
    {
      assert groups[..j + 1][..j] == groups[..j];
      ghost var mid := out;
      for k := 0 to |resources|
        invariant out == mid + ResourceAtoms(verb, groups[j], resources, ns)[..k]
      {
        out := out + [Permission(verb, groups[j], resources[k], ns)];
      }
    }
    assert groups[..|groups|] == groups;
  }

  /** expandRule: exactly the atoms of the rule, in the order of its loops. */
  method ExpandRule(r: PolicyRule, ns: string) returns (out: seq<Permission>)
    ensures out == Atoms(r, r.verbs, ns)
    ensures forall p :: p in out <==> AtomOf(r, ns, p)
  {
    out := [];
    for i := 0 to |r.verbs|
      invariant out == Atoms(r, r.verbs[..i], ns)
    {
      var v := r.verbs[i];
      assert r.verbs[..i + 1][..i] == r.verbs[..i];
      var plain := ExpandGroups(v, Defaulted(r.apiGroups), Defaulted(r.resources), ns);
      out := out + plain;
      ghost var before := out;
      for j := 0 to |r.nonResourceURLs|
        invariant out == before + ResourceAtoms(v, NON_RESOURCE, r.nonResourceURLs, ns)[..j]
      {
        out := out + [Permission(v, NON_RESOURCE, r.nonResourceURLs[j], ns)];
      }
    }
    assert r.verbs[..|r.verbs|] == r.verbs;
    AtomsAreExact(r, r.verbs, ns);
  }

  /** The subject with this key holds p through one of the grants. */
  ghost predicate Holds(grants: seq<Grant>, key: string, p: Permission)
  {
    exists gr, r :: gr in grants && gr.subject.Key() == key && r in gr.role.rules && AtomOf(r, gr.ns, p)
  }

  /** A list without repetitions and the set of its elements. */
  ghost predicate Distinct(out: seq<Permission>, seen: set<Permission>)
  {
    (forall p :: p in out <==> p in seen) && NoRepeats(out)
  }

  /** The rendering the permissions of a subject are sorted by. */
  function Rendered(p: Permission): string
  {
    p.verb + " " + p.resource + "." + (if p.apiGroup == "" then "core" else p.apiGroup) + " " +
    if p.ns == "" then "cluster-wide" else "in " + p.ns
  }

  predicate RendersBefore(p: Permission, q: Permission)
  {
    TextLess(Rendered(p), Rendered(q))
  }

  lemma RenderingRanks()
    ensures Ranks(RendersBefore)
  {
    TextRanks();
  }

  /** SubjectPermissions: every atom the subject holds, each once, ordered by rendering. */
  method SubjectPermissions(grants: seq<Grant>, key: string) returns (out: seq<Permission>)
    ensures forall p :: p in out <==> Holds(grants, key, p)
    ensures NoRepeats(out) && InOrder(out, RendersBefore)
  {
    out := [];
    var seen: set<Permission> := {};
    for g := 0 to |grants|
      invariant Distinct(out, seen)
      invariant forall p :: p in out <==> Holds(grants[..g], key, p)
    {
      var gr := grants[g];
      assert grants[..g + 1] == grants[..g] + [gr];
      if gr.subject.Key() != key {
        continue;
      }
      out, seen := AddRules(out, seen, gr);
    }
    assert grants[..|grants|] == grants;
    RenderingRanks();
    SortInOrder(out, RendersBefore);
    SortMembers(out, RendersBefore);
    SortNoRepeats(out, RendersBefore);
    out := StableSort(out, RendersBefore);
  }

  /** The atoms of one grant. */
  method AddRules(out0: seq<Permission>, seen0: set<Permission>, gr: Grant)
    returns (out: seq<Permission>, seen: set<Permission>)
    requires Distinct(out0, seen0)
    ensures Distinct(out, seen)
    ensures forall p :: p in out <==> p in out0 || exists r :: r in gr.role.rules && AtomOf(r, gr.ns, p)
  {
    out, seen := out0, seen0;
    var rules := gr.role.rules;
    for k := 0 to |rules|
      invariant Distinct(out, seen)
      invariant forall p :: p in out <==> p in out0 || exists r :: r in rules[..k] && AtomOf(r, gr.ns, p)
    {
      assert rules[..k + 1] == rules[..k] + [rules[k]];
      var atoms := ExpandRule(rules[k], gr.ns);
      out, seen := AddNew(out, seen, atoms);
    }
    assert rules[..|rules|] == rules;
  }

  method AddNew(out0: seq<Permission>, seen0: set<Permission>, atoms: seq<Permission>)
    returns (out: seq<Permission>, seen: set<Permission>)
    requires Distinct(out0, seen0)
    ensures Distinct(out, seen) && forall p :: p in out <==> p in out0 || p in atoms
  {
    out, seen := out0, seen0;
    for a := 0 to |atoms|
      invariant Distinct(out, seen) && forall p :: p in out <==> p in out0 || p in atoms[..a]
    {
      assert atoms[..a + 1] == atoms[..a] + [atoms[a]];
      if atoms[a] !in seen {
        seen := seen + {atoms[a]};
        out := out + [atoms[a]];
      }
    }
    assert atoms[..|atoms|] == atoms;
  }

  // ----- Reverse queries -----

  /** contains: membership with "*" as a match-all. */
  method Contains(xs: seq<string>, want: string) returns (found: bool)
    ensures found <==> Matches(xs, want)
  {
    for i := 0 to |xs|
      invariant "*" !in xs[..i] && want !in xs[..i]
    {
      assert xs[..i + 1] == xs[..i] + [xs[i]];
      if xs[i] == "*" || xs[i] == want {
        return true;
      }
    }
    assert xs[..|xs|] == xs;
    found := false;
  }

  predicate Matches(xs: seq<string>, want: string)
  {
    "*" in xs || want in xs
  }

  predicate RuleMatches(r: PolicyRule, verb: string, apiGroup: string, resource: string)
  {
    Matches(r.verbs, verb) && Matches(Defaulted(r.apiGroups), apiGroup) && Matches(Defaulted(r.resources), resource)
  }

  predicate ScopeFits(ns: string, query: string)
  {
    query == "" || ns == "" || ns == query
  }

  /** gr answers the query "who can verb on resource in apiGroup, in this namespace". */
  ghost predicate Answers(gr: Grant, verb: string, apiGroup: string, resource: string, query: string)
  {
    ScopeFits(gr.ns, query) && exists r :: r in gr.role.rules && RuleMatches(r, verb, apiGroup, resource)
  }

  /** WhoCan lists this key. */
  ghost predicate Listed(grants: seq<Grant>, key: string, verb: string, apiGroup: string, resource: string, query: string)
  {
    exists gr :: gr in grants && gr.subject.Key() == key && Answers(gr, verb, apiGroup, resource, query)
  }

  /** The subject of the last grant under this key that answers. */
  ghost function LastAnswer(
    grants: seq<Grant>, key: string, verb: string, apiGroup: string, resource: string, query: string)
    : (r: Option<Subject>)
    ensures r.Some? <==> Listed(grants, key, verb, apiGroup, resource, query)
    ensures r.Some? ==> r.value.Key() == key
    decreases |grants|
  {
    if grants == [] then None
    else
      var init, gr := grants[..|grants| - 1], grants[|grants| - 1];
      assert grants == init + [gr];
      if gr.subject.Key() == key && Answers(gr, verb, apiGroup, resource, query) then Some(gr.subject)
      else LastAnswer(init, key, verb, apiGroup, resource, query)
  }

  /** The subjects collected under their keys, ordered by key. */
  method SubjectsByKey(seen: map<string, Subject>) returns (out: seq<Subject>)
    requires forall k :: k in seen ==> seen[k].Key() == k
    ensures Strict(out, KeyLess)
    ensures forall s: Subject :: s in out <==> s.Key() in seen && seen[s.Key()] == s
  {
    var keys := SortedKeys(seen.Keys);
    assert forall i :: 0 <= i < |keys| ==> keys[i] in keys;
    out := seq(|keys|, i requires 0 <= i < |keys| => seen[keys[i]]);
    forall s: Subject | s.Key() in seen && seen[s.Key()] == s
      ensures s in out
    {
      assert s.Key() in keys;
      var i :| 0 <= i < |keys| && keys[i] == s.Key();
      assert out[i] == s;
    }
  }

  predicate KeyLess(a: Subject, b: Subject)
  {
    TextLess(a.Key(), b.Key())
  }

  /** WhoCan: for every key listed the subject of the last grant that answers, ordered by key. */
  method WhoCan(grants: seq<Grant>, verb: string, apiGroup: string, resource: string, query: string)
    returns (out: seq<Subject>)
    ensures Strict(out, KeyLess)
    ensures forall s: Subject :: s in out <==> LastAnswer(grants, s.Key(), verb, apiGroup, resource, query) == Some(s)
  {
    var seen: map<string, Subject> := map[];
    for g := 0 to |grants|
      invariant forall k :: k in seen <==> LastAnswer(grants[..g], k, verb, apiGroup, resource, query).Some?
      invariant forall k :: k in seen ==>
        LastAnswer(grants[..g], k, verb, apiGroup, resource, query) == Some(seen[k])
    {
      var gr := grants[g];
      assert grants[..g + 1][..g] == grants[..g];
      var hit := AnswersQuery(gr, verb, apiGroup, resource, query);
      if hit {
        seen := seen[gr.subject.Key() := gr.subject];
      }
    }
    assert grants[..|grants|] == grants;
    out := SubjectsByKey(seen);
  }

  method AnswersQuery(gr: Grant, verb: string, apiGroup: string, resource: string, query: string) returns (hit: bool)
    ensures hit <==> Answers(gr, verb, apiGroup, resource, query)
  {
    if !ScopeFits(gr.ns, query) {
      return false;
    }
    var rules := gr.role.rules;
    for i := 0 to |rules|
      invariant forall r :: r in rules[..i] ==> !RuleMatches(r, verb, apiGroup, resource)
    {
      assert rules[..i + 1] == rules[..i] + [rules[i]];
      if RuleMatches(rules[i], verb, apiGroup, resource) {
        return true;
      }
    }
    assert rules[..|rules|] == rules;
    hit := false;
  }

  /** An atom that permits the query, up to "*". */
  predicate Permits(p: Permission, verb: string, apiGroup: string, resource: string, query: string)
  {
    && (p.verb == "*" || p.verb == verb) && (p.apiGroup == "*" || p.apiGroup == apiGroup)
    && (p.resource == "*" || p.resource == resource) && ScopeFits(p.ns, query)
  }

  /** The subject holds a URL grant that only looks like a match: WhoCan does not look at
      nonResourceURLs, SubjectPermissions surfaces them under a synthetic apiGroup. */
  ghost predicate UrlGranted(grants: seq<Grant>, key: string, verb: string, resource: string, query: string)
  {
    exists gr, r :: gr in grants && gr.subject.Key() == key && ScopeFits(gr.ns, query) && r in gr.role.rules &&
      Matches(r.verbs, verb) && Matches(r.nonResourceURLs, resource)
  }

  /** The element a wildcard match is due to. */
  lemma MatchWitness(xs: seq<string>, want: string) returns (x: string)
    requires Matches(xs, want)
    ensures x in xs && (x == "*" || x == want)
  {
    x := if want in xs then want else "*";
  }

  /** Forward and reverse review agree for every query: a subject holds an atom that permits
      the query exactly when WhoCan lists it, or when the query names the synthetic apiGroup
      and the subject has a matching URL grant. */
  lemma ReviewsAgree(grants: seq<Grant>, key: string, verb: string, apiGroup: string, resource: string, query: string)
    ensures (exists p :: Holds(grants, key, p) && Permits(p, verb, apiGroup, resource, query)) <==>
            Listed(grants, key, verb, apiGroup, resource, query) ||
            (apiGroup == NON_RESOURCE && UrlGranted(grants, key, verb, resource, query))
  {
    if Listed(grants, key, verb, apiGroup, resource, query) {
      ListedHolds(grants, key, verb, apiGroup, resource, query);
    }
    if apiGroup == NON_RESOURCE && UrlGranted(grants, key, verb, resource, query) {
      UrlGrantedHolds(grants, key, verb, resource, query);
    }
    forall p | Holds(grants, key, p) && Permits(p, verb, apiGroup, resource, query)
      ensures Listed(grants, key, verb, apiGroup, resource, query) ||
              (apiGroup == NON_RESOURCE && UrlGranted(grants, key, verb, resource, query))
    {
      var gr, r :| gr in grants && gr.subject.Key() == key && r in gr.role.rules && AtomOf(r, gr.ns, p);
      if p.apiGroup in Defaulted(r.apiGroups) && p.resource in Defaulted(r.resources) {
        assert RuleMatches(r, verb, apiGroup, resource);
        assert Answers(gr, verb, apiGroup, resource, query);
      } else {
        assert Matches(r.nonResourceURLs, resource);
      }
    }
  }

  lemma ListedHolds(grants: seq<Grant>, key: string, verb: string, apiGroup: string, resource: string, query: string)
    requires Listed(grants, key, verb, apiGroup, resource, query)
    ensures exists p :: Holds(grants, key, p) && Permits(p, verb, apiGroup, resource, query)
  {
    var gr :| gr in grants && gr.subject.Key() == key && Answers(gr, verb, apiGroup, resource, query);
    var r :| r in gr.role.rules && RuleMatches(r, verb, apiGroup, resource);
    var v := MatchWitness(r.verbs, verb);
    var g := MatchWitness(Defaulted(r.apiGroups), apiGroup);
    var res := MatchWitness(Defaulted(r.resources), resource);
    var p := Permission(v, g, res, gr.ns);
    assert AtomOf(r, gr.ns, p) && Permits(p, verb, apiGroup, resource, query);
    assert Holds(grants, key, p);
  }

  lemma UrlGrantedHolds(grants: seq<Grant>, key: string, verb: string, resource: string, query: string)
    requires UrlGranted(grants, key, verb, resource, query)
    ensures exists p :: Holds(grants, key, p) && Permits(p, verb, NON_RESOURCE, resource, query)
  {
    var gr, r :| gr in grants && gr.subject.Key() == key && ScopeFits(gr.ns, query) && r in gr.role.rules &&
      Matches(r.verbs, verb) && Matches(r.nonResourceURLs, resource);
    var v := MatchWitness(r.verbs, verb);
    var res := MatchWitness(r.nonResourceURLs, resource);
    var p := Permission(v, NON_RESOURCE, res, gr.ns);
    assert AtomOf(r, gr.ns, p) && Permits(p, verb, NON_RESOURCE, resource, query);
    assert Holds(grants, key, p);
  }

  /** A subject whose only rule is a health probe holds an atom that permits reading that URL
      under the synthetic group, and no reverse query lists it for that. */
  lemma UrlGrantIsNotListed(subject: Subject)
    ensures var probe := PolicyRule([], [], ["get"], ["/healthz"]);
            var grants := [Grant(subject, Role("probe", true, [probe]), "")];
            && (exists p :: Holds(grants, subject.Key(), p) && Permits(p, "get", NON_RESOURCE, "/healthz", ""))
            && !Listed(grants, subject.Key(), "get", NON_RESOURCE, "/healthz", "")
  {
    var probe := PolicyRule([], [], ["get"], ["/healthz"]);
    var gr := Grant(subject, Role("probe", true, [probe]), "");
    assert gr in [gr] && probe in gr.role.rules;
    assert "get" in probe.verbs && "/healthz" in probe.nonResourceURLs;
    UrlGrantedHolds([gr], subject.Key(), "get", "/healthz", "");
    assert Defaulted(probe.apiGroups) == [""] && |""| != |NON_RESOURCE| && |""| != |"*"|;
    assert !RuleMatches(probe, "get", NON_RESOURCE, "/healthz");
  }
}
