/** Access review and escalation told from the cluster itself: on the fields of its bindings,
    subjects, roles and rules, with every name written out. */
module RbacLaws {
  import opened Lists
  import opened Options
  import opened RbacEscalation
  import opened RbacGraph
  import opened RbacReport
  import opened RbacSearch
  import opened SortedText
  import opened Text

  // ----- Bindings -----

  predicate Stored(c: Cluster, key: string, role: Role)
  {
    key in c.roles && c.roles[key] == role
  }

  /** The role a binding refers to; without a kind its own namespace comes first. */
  predicate RefersTo(c: Cluster, b: Binding, role: Role)
  {
    var own, shared := "Role/" + b.ns + "/" + b.refName, "ClusterRole/" + b.refName;
    || (b.refKind == "ClusterRole" && Stored(c, shared, role))
    || (b.refKind == "Role" && Stored(c, own, role))
    || (b.refKind != "ClusterRole" && b.refKind != "Role" &&
        (Stored(c, own, role) || (own !in c.roles && Stored(c, shared, role))))
  }

  /** A binding gives this subject the role, in this namespace or, where it is empty, everywhere. */
  ghost predicate Gives(c: Cluster, b: Binding, sub: Subject, role: Role, ns: string)
  {
    b in c.bindings && sub in b.subjects && RefersTo(c, b, role) && ns == if b.clusterScoped then "" else b.ns
  }

  /** Somebody of this key is given the rule. */
  ghost predicate Ruled(c: Cluster, key: string, rule: PolicyRule, ns: string)
  {
    exists b, sub, role :: Gives(c, b, sub, role, ns) && sub.Key() == key && rule in role.rules
  }

  lemma RefersIff(c: Cluster, b: Binding, role: Role)
    ensures RefersTo(c, b, role) <==> ResolveRole(c, b) == Some(role)
  {}

  lemma GrantIff(c: Cluster, gs: seq<Grant>, gr: Grant)
    requires GrantsOf(c, gs)
    ensures gr in gs <==> exists b :: Gives(c, b, gr.subject, gr.role, gr.ns)
  {
    forall b
      ensures RefersTo(c, b, gr.role) <==> ResolveRole(c, b) == Some(gr.role)
    {
      RefersIff(c, b, gr.role);
    }
    if gr in gs {
      assert Granted(c, gr);
      var b :| b in c.bindings && gr.subject in b.subjects && ResolveRole(c, b) == Some(gr.role) && gr.ns == GrantScope(b);
      assert Gives(c, b, gr.subject, gr.role, gr.ns);
    }
    if b :| Gives(c, b, gr.subject, gr.role, gr.ns) {
      assert Granted(c, gr);
    }
  }

  lemma RuledIff(c: Cluster, gs: seq<Grant>, key: string, rule: PolicyRule, ns: string)
    requires GrantsOf(c, gs)
    ensures Ruled(c, key, rule, ns) <==>
            exists gr :: gr in gs && gr.subject.Key() == key && rule in gr.role.rules && gr.ns == ns
  {
    if b, sub, role :| Gives(c, b, sub, role, ns) && sub.Key() == key && rule in role.rules {
      GrantIff(c, gs, Grant(sub, role, ns));
    }
    if gr :| gr in gs && gr.subject.Key() == key && rule in gr.role.rules && gr.ns == ns {
      GrantIff(c, gs, gr);
      var b :| Gives(c, b, gr.subject, gr.role, gr.ns);
    }
  }

  // ----- Permissions -----

  /** The rule names this verb on this resource; a missing list names the empty text, and the URLs
      appear under a group of their own. */
  predicate Says(rule: PolicyRule, verb: string, group: string, resource: string)
  {
    verb in rule.verbs &&
    (|| ((group in rule.apiGroups || (rule.apiGroups == [] && group == "")) &&
         (resource in rule.resources || (rule.resources == [] && resource == "")))
     || (group == "nonResourceURL" && resource in rule.nonResourceURLs))
  }

  /** A subject holds exactly the permissions of the rules its bindings give it. */
  lemma HoldsIff(c: Cluster, gs: seq<Grant>, key: string, p: Permission)
    requires GrantsOf(c, gs)
    ensures Holds(gs, key, p) <==>
            exists rule :: Ruled(c, key, rule, p.ns) && Says(rule, p.verb, p.apiGroup, p.resource)
  {
    if Holds(gs, key, p) {
      var gr, r :| gr in gs && gr.subject.Key() == key && r in gr.role.rules && AtomOf(r, gr.ns, p);
      RuledIff(c, gs, key, r, p.ns);
      assert Says(r, p.verb, p.apiGroup, p.resource);
    }
    if rule :| Ruled(c, key, rule, p.ns) && Says(rule, p.verb, p.apiGroup, p.resource) {
      RuledIff(c, gs, key, rule, p.ns);
      assert AtomOf(rule, p.ns, p);
    }
  }

  /** The rule lets its holder do this, "*" standing for everything. */
  predicate Lets(rule: PolicyRule, verb: string, group: string, resource: string)
  {
    && (verb in rule.verbs || "*" in rule.verbs)
    && (group in rule.apiGroups || "*" in rule.apiGroups || (rule.apiGroups == [] && group == ""))
    && (resource in rule.resources || "*" in rule.resources || (rule.resources == [] && resource == ""))
  }

  /** What WhoCan lists names a subject exactly when a binding gives it a rule that lets it, in the
      namespace asked for. */
  lemma WhoCanIff(c: Cluster, gs: seq<Grant>, out: seq<Subject>, key: string, verb: string, group: string,
      resource: string, query: string)
    requires GrantsOf(c, gs)
    requires forall s: Subject :: s in out <==> LastAnswer(gs, s.Key(), verb, group, resource, query) == Some(s)
    ensures (exists s :: s in out && s.Key() == key) <==> (exists rule, ns ::
              Ruled(c, key, rule, ns) && Lets(rule, verb, group, resource) && (query == "" || ns == "" || ns == query))
  {
    LastAnswerLists(gs, out, key, verb, group, resource, query);
    forall rule
      ensures Lets(rule, verb, group, resource) <==> RuleMatches(rule, verb, group, resource)
    {}
    if Listed(gs, key, verb, group, resource, query) {
      var gr :| gr in gs && gr.subject.Key() == key && Answers(gr, verb, group, resource, query);
      var r :| r in gr.role.rules && RuleMatches(r, verb, group, resource);
      RuledIff(c, gs, key, r, gr.ns);
    }
    if rule, ns :|
      Ruled(c, key, rule, ns) && Lets(rule, verb, group, resource) && (query == "" || ns == "" || ns == query)
    {
      RuledIff(c, gs, key, rule, ns);
      var gr :| gr in gs && gr.subject.Key() == key && rule in gr.role.rules && gr.ns == ns;
      assert Answers(gr, verb, group, resource, query);
    }
  }

  lemma LastAnswerLists(gs: seq<Grant>, out: seq<Subject>, key: string, verb: string, group: string, resource: string,
      query: string)
    requires forall s: Subject :: s in out <==> LastAnswer(gs, s.Key(), verb, group, resource, query) == Some(s)
    ensures (exists s :: s in out && s.Key() == key) <==> Listed(gs, key, verb, group, resource, query)
  {
    var last := LastAnswer(gs, key, verb, group, resource, query);
    if last.Some? {
      assert last.value in out;
    }
  }

  // ----- Identity theft -----

  predicate NoSlash(s: string)
  {
    forall i :: 0 <= i < |s| ==> s[i] != '/'
  }

  /** An account named in the cluster, its key written out. */
  function AccountKey(ns: string, name: string): string
  {
    "ServiceAccount/" + ns + "/" + name
  }

  /** The rule names the resource, or a URL spelled like it. */
  predicate Names(rule: PolicyRule, resource: string)
  {
    resource in rule.resources || resource in rule.nonResourceURLs
  }

  /** The rule lets its holder read secrets or mint tokens. */
  predicate Thieving(rule: PolicyRule)
  {
    || (("get" in rule.verbs || "list" in rule.verbs || "watch" in rule.verbs || "*" in rule.verbs) &&
        (Names(rule, "secrets") || Names(rule, "*")))
    || (("create" in rule.verbs || "*" in rule.verbs) &&
        (Names(rule, "serviceaccounts/token") || Names(rule, "tokenrequests")))
  }

  /** The account is named in a binding whose role exists. */
  ghost predicate IsBound(c: Cluster, ns: string, name: string)
  {
    exists b, role, scope :: Gives(c, b, Subject("ServiceAccount", name, ns), role, scope)
  }

  lemma {:induction false} SplitOne(s: string)
    requires NoSlash(s)
    ensures SplitSlash(s) == [s]
    decreases |s|
  {
    if s != "" {
      SplitOne(s[1..]);
      assert s == [s[0]] + s[1..];
    }
  }

  lemma {:induction false} SplitFirst(a: string, rest: string, s: string)
    requires NoSlash(a) && s == a + "/" + rest
    ensures SplitSlash(s) == [a] + SplitSlash(rest)
    decreases |a|
  {
    if a == "" {
      assert s[0] == '/' && s[1..] == rest;
    } else {
      assert s[1..] == a[1..] + "/" + rest && s[0] == a[0];
      SplitFirst(a[1..], rest, s[1..]);
      assert a == [a[0]] + a[1..];
    }
  }

  /** The namespace read off a key is that of the account. */
  lemma NamespaceOfKey(ns: string, name: string)
    requires NoSlash(ns) && NoSlash(name)
    ensures SubjectNamespace(AccountKey(ns, name)) == ns
  {
    var kind, rest := "ServiceAccount", ns + "/" + name;
    assert NoSlash(kind);
    assert AccountKey(ns, name) == kind + "/" + rest;
    SplitFirst(kind, rest, AccountKey(ns, name));
    SplitFirst(ns, name, rest);
    SplitOne(name);
  }

  /** No other service account has the key. */
  lemma KeyIsItsAccount(s: Subject, ns: string, name: string)
    requires NoSlash(ns) && NoSlash(name) && s.kind == "ServiceAccount" && s.Key() == AccountKey(ns, name)
    ensures s == Subject("ServiceAccount", name, ns)
  {
    var t, t' := ns + "/" + name, s.ns + "/" + s.name;
    assert s.Key()[15..] == t' && AccountKey(ns, name)[15..] == t;
    assert t[|s.ns|] == '/' && |s.ns| == |ns|;
    assert t[..|ns|] == ns && t'[..|ns|] == s.ns;
    assert t[|ns| + 1..] == name && t'[|ns| + 1..] == s.name;
  }

  lemma BoundIff(c: Cluster, gs: seq<Grant>, ns: string, name: string)
    requires GrantsOf(c, gs) && NoSlash(ns) && NoSlash(name)
    ensures IsServiceAccount(gs, AccountKey(ns, name)) <==> IsBound(c, ns, name)
  {
    if IsServiceAccount(gs, AccountKey(ns, name)) {
      var gr :| gr in gs && gr.subject.kind == "ServiceAccount" && gr.subject.Key() == AccountKey(ns, name);
      KeyIsItsAccount(gr.subject, ns, name);
      GrantIff(c, gs, gr);
      var b :| Gives(c, b, gr.subject, gr.role, gr.ns);
    }
    if b, role, scope :| Gives(c, b, Subject("ServiceAccount", name, ns), role, scope) {
      GrantIff(c, gs, Grant(Subject("ServiceAccount", name, ns), role, scope));
    }
  }

  /** A thieving rule yields an atom that steals. */
  lemma ThievingAtom(rule: PolicyRule, ns: string) returns (p: Permission)
    requires Thieving(rule)
    ensures AtomOf(rule, ns, p) && Steals(p)
  {
    var verb, resource;
    if ("create" in rule.verbs || "*" in rule.verbs) &&
        (Names(rule, "serviceaccounts/token") || Names(rule, "tokenrequests")) {
      verb := if "create" in rule.verbs then "create" else "*";
      resource := if Names(rule, "tokenrequests") then "tokenrequests" else "serviceaccounts/token";
    } else {
      verb := if "get" in rule.verbs then "get" else if "list" in rule.verbs then "list"
              else if "watch" in rule.verbs then "watch" else "*";
      resource := if Names(rule, "secrets") then "secrets" else "*";
    }
    p := AtomNaming(rule, verb, resource, ns);
  }

  lemma AtomNaming(rule: PolicyRule, verb: string, resource: string, ns: string) returns (p: Permission)
    requires verb in rule.verbs && Names(rule, resource)
    ensures AtomOf(rule, ns, p) && p.verb == verb && p.resource == resource
  {
    if resource in rule.resources {
      p := Permission(verb, Defaulted(rule.apiGroups)[0], resource, ns);
    } else {
      p := Permission(verb, NON_RESOURCE, resource, ns);
    }
  }

  lemma StealingAtom(rule: PolicyRule, ns: string, p: Permission)
    requires AtomOf(rule, ns, p) && Steals(p)
    ensures Thieving(rule)
  {
    assert p.resource != "";
    assert Names(rule, p.resource);
  }

  lemma StealsIff(c: Cluster, gs: seq<Grant>, key: string, ns: string, name: string)
    requires GrantsOf(c, gs) && NoSlash(ns) && NoSlash(name)
    ensures StealsFrom(gs, key, AccountKey(ns, name)) <==>
            exists rule, scope :: Ruled(c, key, rule, scope) && Thieving(rule) && (scope == "" || scope == ns)
  {
    NamespaceOfKey(ns, name);
    if StealsFrom(gs, key, AccountKey(ns, name)) {
      var p :| Holds(gs, key, p) && Steals(p) && (p.ns == "" || p.ns == ns);
      var gr, r :| gr in gs && gr.subject.Key() == key && r in gr.role.rules && AtomOf(r, gr.ns, p);
      StealingAtom(r, gr.ns, p);
      RuledIff(c, gs, key, r, p.ns);
    }
    if rule, scope :| Ruled(c, key, rule, scope) && Thieving(rule) && (scope == "" || scope == ns) {
      RuledIff(c, gs, key, rule, scope);
      var p := ThievingAtom(rule, scope);
      assert Holds(gs, key, p);
    }
  }

  /** A subject can become a service account exactly when the account is bound and the subject is
      another one that some binding, cluster-wide or in the account's namespace, gives a rule that
      reads secrets or mints tokens. */
  lemma TheftLaw(c: Cluster, gs: seq<Grant>, adj: Edges, key: string, ns: string, name: string)
    requires GrantsOf(c, gs) && EdgesOf(gs, adj) && NoSlash(ns) && NoSlash(name)
    ensures Edge("ServiceAccount/" + ns + "/" + name, StealsIdentity) in Out(adj, key) <==>
            (key != "ServiceAccount/" + ns + "/" + name && IsBound(c, ns, name) &&
             exists rule, scope :: Ruled(c, key, rule, scope) && Thieving(rule) && (scope == "" || scope == ns))
  {
    StealsIff(c, gs, key, ns, name);
    BoundIff(c, gs, ns, name);
    var e := Edge(AccountKey(ns, name), StealsIdentity);
    assert e in Out(adj, key) <==> HasEdge(gs, key, e);
  }

  /** Every theft edge leads to a bound service account. */
  lemma TheftEndsAtAccounts(c: Cluster, gs: seq<Grant>, adj: Edges, key: string, e: Edge)
    requires GrantsOf(c, gs) && EdgesOf(gs, adj) && e in Out(adj, key) && e.reason == StealsIdentity
    ensures exists ns, name :: IsBound(c, ns, name) && e.to == "ServiceAccount/" + ns + "/" + name
  {
    assert HasEdge(gs, key, e);
    var gr :| gr in gs && gr.subject.kind == "ServiceAccount" && gr.subject.Key() == e.to;
    GrantIff(c, gs, gr);
    var b :| Gives(c, b, gr.subject, gr.role, gr.ns);
    assert gr.subject == Subject("ServiceAccount", gr.subject.name, gr.subject.ns);
    assert IsBound(c, gr.subject.ns, gr.subject.name);
  }

  /** The rule reads secrets or mints tokens by the resources it names. */
  predicate ReadsTokens(rule: PolicyRule)
  {
    Thieving(rule.(nonResourceURLs := []))
  }

  predicate SpelledLikeToken(url: string)
  {
    url == "*" || url == "secrets" || url == "serviceaccounts/token" || url == "tokenrequests"
  }

  /** A URL is taken for a resource of its spelling: a rule over every URL and no resource steals
      without reading any token, and only rules with such a URL do. */
  lemma UrlGrantSteals(rule: PolicyRule)
    ensures Thieving(PolicyRule([], [], ["get"], ["*"])) && !ReadsTokens(PolicyRule([], [], ["get"], ["*"]))
    ensures Thieving(rule) && !ReadsTokens(rule) ==> exists u :: u in rule.nonResourceURLs && SpelledLikeToken(u)
  {
    var health := PolicyRule([], [], ["get"], ["*"]);
    assert Names(health, "*") && !Names(health.(nonResourceURLs := []), "*");
  }

  // ----- Escalation to the targets -----

  /** Some binding gives the subject a rule with this verb that names this resource. */
  ghost predicate Able(c: Cluster, key: string, verb: string, resource: string)
  {
    exists rule, ns :: Ruled(c, key, rule, ns) && verb in rule.verbs && Names(rule, resource)
  }

  lemma AbleIff(c: Cluster, gs: seq<Grant>, key: string, verb: string, resource: string)
    requires GrantsOf(c, gs) && resource != ""
    ensures Can(gs, key, verb, resource) <==> Able(c, key, verb, resource)
  {
    if Can(gs, key, verb, resource) {
      var p :| Holds(gs, key, p) && p.verb == verb && p.resource == resource;
      var gr, r :| gr in gs && gr.subject.Key() == key && r in gr.role.rules && AtomOf(r, gr.ns, p);
      RuledIff(c, gs, key, r, p.ns);
    }
    if rule, ns :| Ruled(c, key, rule, ns) && verb in rule.verbs && Names(rule, resource) {
      RuledIff(c, gs, key, rule, ns);
      var p := AtomNaming(rule, verb, resource, ns);
      assert Holds(gs, key, p);
    }
  }

  /** Bound to cluster-admin, or a member of the masters. */
  lemma AdminLaw(c: Cluster, gs: seq<Grant>, adj: Edges, key: string, e: Edge)
    requires GrantsOf(c, gs) && EdgesOf(gs, adj) && e.reason == BoundToAdmin
    ensures e in Out(adj, key) <==> (e.to == "target:cluster-admin" && exists b, sub, role, ns ::
              Gives(c, b, sub, role, ns) && sub.Key() == key &&
              ((role.clusterScoped && role.name == "cluster-admin") ||
               (sub.kind == "Group" && sub.name == "system:masters")))
  {
    assert e in Out(adj, key) <==> HasEdge(gs, key, e);
    if AdminBound(gs, key) {
      var gr :| gr in gs && gr.subject.Key() == key && MakesAdmin(gr);
      GrantIff(c, gs, gr);
      var b :| Gives(c, b, gr.subject, gr.role, gr.ns);
    }
    if b, sub, role, ns :|
      Gives(c, b, sub, role, ns) && sub.Key() == key &&
      ((role.clusterScoped && role.name == "cluster-admin") || (sub.kind == "Group" && sub.name == "system:masters"))
    {
      GrantIff(c, gs, Grant(sub, role, ns));
    }
  }

  /** Granting oneself more: escalate on roles, or bind on cluster roles. */
  lemma GrantingLaw(c: Cluster, gs: seq<Grant>, adj: Edges, key: string, e: Edge)
    requires GrantsOf(c, gs) && EdgesOf(gs, adj)
    ensures e.reason == HoldsEscalate ==> (e in Out(adj, key) <==> (e.to == "target:cluster-admin" &&
              (Able(c, key, "escalate", "roles") || Able(c, key, "escalate", "clusterroles") ||
               Able(c, key, "escalate", "*"))))
    ensures e.reason == HoldsBind ==> (e in Out(adj, key) <==> (e.to == "target:cluster-admin" &&
              (Able(c, key, "bind", "clusterroles") || Able(c, key, "bind", "*"))))
  {
    assert e in Out(adj, key) <==> HasEdge(gs, key, e);
    AbleIff(c, gs, key, "escalate", "roles");
    AbleIff(c, gs, key, "escalate", "clusterroles");
    AbleIff(c, gs, key, "escalate", "*");
    AbleIff(c, gs, key, "bind", "clusterroles");
    AbleIff(c, gs, key, "bind", "*");
  }

  /** Some binding gives the subject a rule with this verb. */
  ghost predicate AbleAnything(c: Cluster, key: string, verb: string)
  {
    exists rule, ns :: Ruled(c, key, rule, ns) && verb in rule.verbs
  }

  lemma SomeAtom(rule: PolicyRule, verb: string, ns: string) returns (p: Permission)
    requires verb in rule.verbs
    ensures AtomOf(rule, ns, p) && p.verb == verb && p.ns == ns
  {
    p := Permission(verb, Defaulted(rule.apiGroups)[0], Defaulted(rule.resources)[0], ns);
  }

  lemma AbleAnythingIff(c: Cluster, gs: seq<Grant>, key: string, verb: string)
    requires GrantsOf(c, gs)
    ensures CanVerb(gs, key, verb) <==> AbleAnything(c, key, verb)
  {
    if CanVerb(gs, key, verb) {
      var p :| Holds(gs, key, p) && p.verb == verb;
      var gr, r :| gr in gs && gr.subject.Key() == key && r in gr.role.rules && AtomOf(r, gr.ns, p);
      RuledIff(c, gs, key, r, p.ns);
    }
    if rule, ns :| Ruled(c, key, rule, ns) && verb in rule.verbs {
      RuledIff(c, gs, key, rule, ns);
      var p := SomeAtom(rule, verb, ns);
      assert Holds(gs, key, p);
    }
  }

  /** Impersonating, whatever the rule names. */
  lemma ImpersonationLaw(c: Cluster, gs: seq<Grant>, adj: Edges, key: string, e: Edge)
    requires GrantsOf(c, gs) && EdgesOf(gs, adj) && e.reason == HoldsImpersonate
    ensures e in Out(adj, key) <==> (e.to == "target:cluster-admin" && AbleAnything(c, key, "impersonate"))
  {
    AbleAnythingIff(c, gs, key, "impersonate");
    assert e in Out(adj, key) <==> HasEdge(gs, key, e);
  }

  ghost predicate AbleToRequest(c: Cluster, key: string)
  {
    Able(c, key, "create", "certificatesigningrequests") || Able(c, key, "*", "certificatesigningrequests")
  }

  ghost predicate AbleToApprove(c: Cluster, key: string)
  {
    || Able(c, key, "update", "certificatesigningrequests/approval") || Able(c, key, "*", "signers")
    || Able(c, key, "*", "certificatesigningrequests/approval")
  }

  lemma RequestIff(c: Cluster, gs: seq<Grant>, key: string)
    requires GrantsOf(c, gs)
    ensures Can(gs, key, "create", CSRS) || Can(gs, key, "*", CSRS) <==> AbleToRequest(c, key)
  {
    AbleIff(c, gs, key, "create", "certificatesigningrequests");
    AbleIff(c, gs, key, "*", "certificatesigningrequests");
  }

  lemma ApproveIff(c: Cluster, gs: seq<Grant>, key: string)
    requires GrantsOf(c, gs)
    ensures Can(gs, key, "update", APPROVAL) || Can(gs, key, "*", "signers") || Can(gs, key, "*", APPROVAL) <==>
            AbleToApprove(c, key)
  {
    AbleIff(c, gs, key, "update", "certificatesigningrequests/approval");
    AbleIff(c, gs, key, "*", "signers");
    AbleIff(c, gs, key, "*", "certificatesigningrequests/approval");
  }

  /** Forging a client certificate takes a request and its approval. */
  lemma ForgeryLaw(c: Cluster, gs: seq<Grant>, adj: Edges, key: string, e: Edge)
    requires GrantsOf(c, gs) && EdgesOf(gs, adj) && e.reason == ForgesCertificates
    ensures e in Out(adj, key) <==>
            (e.to == "target:cluster-admin" && AbleToRequest(c, key) && AbleToApprove(c, key))
  {
    RequestIff(c, gs, key);
    ApproveIff(c, gs, key);
    ForgeryEdge(gs, key, e);
    assert e in Out(adj, key) <==> HasEdge(gs, key, e);
  }

  lemma ForgeryEdge(gs: seq<Grant>, key: string, e: Edge)
    requires e.reason == ForgesCertificates
    ensures HasEdge(gs, key, e) <==>
            && e.to == "target:cluster-admin" && (Can(gs, key, "create", CSRS) || Can(gs, key, "*", CSRS))
            && (Can(gs, key, "update", APPROVAL) || Can(gs, key, "*", "signers") || Can(gs, key, "*", APPROVAL))
  {}

  predicate IsWorkload(r: string)
  {
    r == "pods" || r == "deployments" || r == "daemonsets" || r == "statefulsets" || r == "jobs"
  }

  /** The ways to a node: a pod of one's own, or the kubelet. */
  lemma NodeLaw(c: Cluster, gs: seq<Grant>, adj: Edges, key: string, e: Edge)
    requires GrantsOf(c, gs) && EdgesOf(gs, adj)
    ensures e.reason == CreatesWorkloads ==> (e in Out(adj, key) <==> (e.to == "target:node-root" &&
              ((exists r :: IsWorkload(r) && Able(c, key, "create", r)) || Able(c, key, "*", "pods"))))
    ensures e.reason == ReachesNodes ==> (e in Out(adj, key) <==> (e.to == "target:node-root" &&
              (Able(c, key, "get", "nodes/proxy") || Able(c, key, "*", "nodes/proxy") || Able(c, key, "get", "nodes"))))
  {
    assert e in Out(adj, key) <==> HasEdge(gs, key, e);
    forall r
      ensures r in WORKLOADS <==> IsWorkload(r)
      ensures IsWorkload(r) ==> (Can(gs, key, "create", r) <==> Able(c, key, "create", r))
    {
      assert WORKLOADS[0] == "pods" && WORKLOADS[1] == "deployments" && WORKLOADS[2] == "daemonsets";
      assert WORKLOADS[3] == "statefulsets" && WORKLOADS[4] == "jobs" && |WORKLOADS| == 5;
      if IsWorkload(r) {
        AbleIff(c, gs, key, "create", r);
      }
    }
    AbleIff(c, gs, key, "*", "pods");
    AbleIff(c, gs, key, "get", "nodes/proxy");
    AbleIff(c, gs, key, "*", "nodes/proxy");
    AbleIff(c, gs, key, "get", "nodes");
  }

  // ----- Order -----

  lemma GrantsRank()
    ensures Ranks(GrantLess)
  {
    TextRanks();
    forall x: Grant, y: Grant, z: Grant | GrantLess(x, y) && !GrantLess(z, y)
      ensures GrantLess(x, z)
    {
      TextLessIsTotal(x.subject.Key(), y.subject.Key());
      TextLessIsTotal(y.subject.Key(), z.subject.Key());
    }
    forall x: Grant, y: Grant | GrantLess(x, y)
      ensures !GrantLess(y, x)
    {
      TextLessIsTotal(x.subject.Key(), y.subject.Key());
    }
  }

  /** Grants go by subject, and of one subject by the name of the role. */
  lemma GrantsAreOrdered(c: Cluster, grants: seq<Grant>, i: nat, j: nat)
    requires grants == StableSort(AllGrants(c, c.bindings), GrantLess) && i < j < |grants|
    ensures var a, b := grants[i], grants[j];
            && !TextLess(b.subject.Key(), a.subject.Key())
            && (a.subject.Key() == b.subject.Key() ==> !TextLess(b.role.name, a.role.name))
  {
    GrantsRank();
    SortInOrder(AllGrants(c, c.bindings), GrantLess);
    assert !GrantLess(grants[j], grants[i]);
    TextLessIsTotal(grants[i].subject.Key(), grants[j].subject.Key());
  }

  /** The steps a subject can take go by where they lead. */
  lemma EdgesAreOrdered(edges: seq<Edge>, i: nat, j: nat)
    requires Strict(edges, EdgeLess) && i < j < |edges|
    ensures edges[i].to == edges[j].to || TextLess(edges[i].to, edges[j].to)
  {
    assert EdgeLess(edges[i], edges[j]);
  }

  /** The findings go by where they start. */
  lemma ReportIsOrdered(c: Cluster, gs: seq<Grant>, adj: Edges, out: seq<Finding>, i: nat, j: nat)
    requires IsReport(c, gs, adj, out) && i < j < |out|
    ensures !TextLess(out[j].start.origin, out[i].start.origin)
  {
    assert !FindingLess(out[j], out[i]);
  }

  // ----- Pods -----

  /** No name in the cluster has a bar, so that repeated findings are of one start. */
  ghost predicate NoBars(c: Cluster, gs: seq<Grant>)
  {
    forall st :: IsStart(c, gs, st) ==> NoBar(st.key)
  }

  lemma ReportEnds(adj: Edges, st: StartPoint, f: Finding)
    requires Reports(adj, st, f)
    ensures IsTarget(f.target) && f.start == st
  {}

  lemma ReportedStart(c: Cluster, gs: seq<Grant>, adj: Edges, out: seq<Finding>, st: StartPoint) returns (h: Finding)
    requires IsReport(c, gs, adj, out) && NoBars(c, gs) && IsStart(c, gs, st) && CanEscalate(adj, st.key)
    ensures h in out && h.start == st
  {
    assert Reported(adj, st, out);
    var f :| Reports(adj, st, f) && Repeats(out, f, IdentityOf());
    h := Repeated(out, f);
    ReportEnds(adj, st, f);
    ReportEnds(adj, h.start, h);
    IdentityIsExact(h, f);
  }

  /** How a pod's start reads. */
  function PodOrigin(p: Pod, account: string): string
  {
    "Pod " + p.ns + "/" + p.name + " (as " + account + ")"
  }

  lemma PodIsStart(c: Cluster, gs: seq<Grant>, p: Pod, account: string)
    requires p in c.pods
    requires account == AccountKey(p.ns, if p.serviceAccount == "" then "default" else p.serviceAccount)
    ensures IsStart(c, gs, StartPoint(PodOrigin(p, account), account))
  {
    assert PodKey(p) == account;
    assert PodStart(p) == StartPoint(PodOrigin(p, account), account);
  }

  /** A pod is reported exactly when some walk over the edges leads from the account it runs as,
      default where it names none, to a target. */
  lemma PodLaw(c: Cluster, gs: seq<Grant>, adj: Edges, out: seq<Finding>, p: Pod, account: string)
    requires IsReport(c, gs, adj, out) && NoBars(c, gs) && p in c.pods
    requires account == AccountKey(p.ns, if p.serviceAccount == "" then "default" else p.serviceAccount)
    ensures (exists f :: f in out && f.start.key == account && f.start.origin == PodOrigin(p, account)) <==>
            (exists w :: Escalates(adj, account, w))
  {
    var st := StartPoint(PodOrigin(p, account), account);
    PodIsStart(c, gs, p, account);
    if w :| Escalates(adj, account, w) {
      assert CanEscalate(adj, st.key);
      var h := ReportedStart(c, gs, adj, out, st);
    }
    if f :| f in out && f.start.key == account {
      assert Reports(adj, f.start, f);
      assert Escalates(adj, account, f.path);
    }
  }
}
