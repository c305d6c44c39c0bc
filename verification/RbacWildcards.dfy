/** What the escalation rule book makes of wildcards: its tests compare names, so a grant of *
    often goes unseen. */
module RbacWildcards {
  import opened RbacEscalation
  import opened RbacGraph
  import opened RbacSearch

  /** What a subject must be able to do for a primitive. */
  datatype Ability =
    | Escalate | BindRoles | Impersonate | RequestCertificate | ApproveCertificate | CreateWorkload | ReachNode

  /** The primitive takes all of these. */
  function AbilitiesOf(reason: Reason): set<Ability>
  {
    match reason
    case HoldsEscalate => {Escalate}
    case HoldsBind => {BindRoles}
    case HoldsImpersonate => {Impersonate}
    case ForgesCertificates => {RequestCertificate, ApproveCertificate}
    case CreatesWorkloads => {CreateWorkload}
    case ReachesNodes => {ReachNode}
    case _ => {}
  }

  /** The permission covers the request, * standing for every verb and every resource. */
  predicate Covers(p: Permission, verb: string, resource: string)
  {
    (p.verb == "*" || p.verb == verb) && (p.resource == "*" || p.resource == resource)
  }

  /** The permission gives the ability, wildcards honoured. */
  predicate Gives(p: Permission, a: Ability)
  {
    match a
    case Escalate => Covers(p, "escalate", "roles") || Covers(p, "escalate", "clusterroles")
    case BindRoles => Covers(p, "bind", "clusterroles")
    case Impersonate => Covers(p, "impersonate", p.resource)
    case RequestCertificate => Covers(p, "create", CSRS)
    case ApproveCertificate => Covers(p, "update", APPROVAL) || Covers(p, "approve", "signers")
    case CreateWorkload => exists r :: r in WORKLOADS && Covers(p, "create", r)
    case ReachNode => Covers(p, "get", "nodes/proxy") || Covers(p, "get", "nodes")
  }

  /** The permission is spelled in a way the rule book does not test for. */
  predicate Unseen(p: Permission, a: Ability)
  {
    match a
    case Escalate => p.verb == "*"
    case BindRoles => p.verb == "*"
    case Impersonate => p.verb == "*"
    case RequestCertificate => p.resource == "*"
    case ApproveCertificate => p.resource == "*" || p.verb == "approve"
    case CreateWorkload => p.resource == "*" || (p.verb == "*" && p.resource != "pods")
    case ReachNode => p.resource == "*" || (p.verb == "*" && p.resource == "nodes")
  }

  ghost predicate MayBy(grants: seq<Grant>, key: string, a: Ability, p: Permission)
  {
    Holds(grants, key, p) && Gives(p, a)
  }

  /** The subject has every ability of the primitive. */
  ghost predicate May(grants: seq<Grant>, key: string, reason: Reason)
  {
    forall a :: a in AbilitiesOf(reason) ==> exists p :: MayBy(grants, key, a, p)
  }

  /** And each by some permission that the rule book sees. */
  ghost predicate Seen(grants: seq<Grant>, key: string, a: Ability)
  {
    exists p :: MayBy(grants, key, a, p) && !Unseen(p, a)
  }

  /** The names the rule book compares with. */
  predicate Tested(verb: string, resource: string, a: Ability)
  {
    match a
    case Escalate => verb == "escalate" && (resource == "roles" || resource == "clusterroles" || resource == "*")
    case BindRoles => verb == "bind" && (resource == "clusterroles" || resource == "*")
    case Impersonate => verb == "impersonate"
    case RequestCertificate => (verb == "create" || verb == "*") && resource == CSRS
    case ApproveCertificate =>
      ((verb == "update" || verb == "*") && resource == APPROVAL) || (verb == "*" && resource == "signers")
    case CreateWorkload => (verb == "create" && resource in WORKLOADS) || (verb == "*" && resource == "pods")
    case ReachNode =>
      ((verb == "get" || verb == "*") && resource == "nodes/proxy") || (verb == "get" && resource == "nodes")
  }

  lemma WorkloadNames(r: string)
    ensures r in WORKLOADS <==>
            r == "pods" || r == "deployments" || r == "daemonsets" || r == "statefulsets" || r == "jobs"
  {
    assert WORKLOADS[0] == "pods" && WORKLOADS[1] == "deployments" && WORKLOADS[2] == "daemonsets";
    assert WORKLOADS[3] == "statefulsets" && WORKLOADS[4] == "jobs" && |WORKLOADS| == 5;
  }

  /** The tests catch exactly the permissions that give the ability and are not unseen. */
  lemma TestedIff(p: Permission, a: Ability)
    ensures Tested(p.verb, p.resource, a) <==> Gives(p, a) && !Unseen(p, a)
  {
    if a == CreateWorkload {
      WorkloadNames(p.resource);
      WorkloadNames("*");
      WorkloadNames("pods");
      if Tested(p.verb, p.resource, a) {
        assert Covers(p, "create", p.resource);
      }
    }
  }

  lemma CanIsSeen(grants: seq<Grant>, key: string, a: Ability, verb: string, resource: string)
    requires Can(grants, key, verb, resource) && Tested(verb, resource, a)
    ensures Seen(grants, key, a)
  {
    var p :| Holds(grants, key, p) && p.verb == verb && p.resource == resource;
    TestedIff(p, a);
    assert MayBy(grants, key, a, p);
  }

  lemma SeenIsCan(grants: seq<Grant>, key: string, a: Ability) returns (p: Permission)
    requires Seen(grants, key, a)
    ensures Holds(grants, key, p) && Tested(p.verb, p.resource, a) && Can(grants, key, p.verb, p.resource)
  {
    p :| MayBy(grants, key, a, p) && !Unseen(p, a);
    TestedIff(p, a);
  }

  /** The rule book finds an ability exactly when some permission of a tested name gives it. */
  lemma SeenIff(grants: seq<Grant>, key: string, a: Ability)
    ensures Seen(grants, key, a) <==>
            exists verb, resource :: Can(grants, key, verb, resource) && Tested(verb, resource, a)
  {
    if Seen(grants, key, a) {
      var p := SeenIsCan(grants, key, a);
    }
    forall verb, resource | Can(grants, key, verb, resource) && Tested(verb, resource, a)
      ensures Seen(grants, key, a)
    {
      CanIsSeen(grants, key, a, verb, resource);
    }
  }

  /** Its tests for a primitive succeed exactly when it finds every ability. */
  lemma PrimitiveIff(grants: seq<Grant>, key: string, reason: Reason)
    requires reason != BoundToAdmin && reason != StealsIdentity
    ensures HasPrimitive(grants, key, reason) <==> forall a :: a in AbilitiesOf(reason) ==> Seen(grants, key, a)
  {
    forall a
      ensures Seen(grants, key, a) <==>
              exists verb, resource :: Can(grants, key, verb, resource) && Tested(verb, resource, a)
    {
      SeenIff(grants, key, a);
    }
    match reason
    case HoldsEscalate => assert Escalate in AbilitiesOf(reason);
    case HoldsBind => assert BindRoles in AbilitiesOf(reason);
    case HoldsImpersonate =>
      assert Impersonate in AbilitiesOf(reason);
      forall p | Holds(grants, key, p) && p.verb == "impersonate"
        ensures Can(grants, key, "impersonate", p.resource)
      {}
    case ForgesCertificates => assert RequestCertificate in AbilitiesOf(reason) && ApproveCertificate in AbilitiesOf(reason);
    case CreatesWorkloads => assert CreateWorkload in AbilitiesOf(reason);
    case ReachesNodes => assert ReachNode in AbilitiesOf(reason);
  }

  /** A subject has the edge of a primitive exactly when it may perform it, wildcards honoured,
      and each ability by a permission that is not spelled with an unseen wildcard. */
  lemma EdgeIffMayAndSeen(grants: seq<Grant>, key: string, reason: Reason)
    requires reason != BoundToAdmin && reason != StealsIdentity
    ensures HasEdge(grants, key, Edge(TerminalOf(reason), reason)) <==>
            May(grants, key, reason) && forall a :: a in AbilitiesOf(reason) ==> Seen(grants, key, a)
  {
    PrimitiveIff(grants, key, reason);
    forall a | Seen(grants, key, a)
      ensures exists p :: MayBy(grants, key, a, p)
    {
      var p :| MayBy(grants, key, a, p) && !Unseen(p, a);
    }
  }

  ghost predicate IsSuper(sa: Subject, grants: seq<Grant>)
  {
    && sa.kind == "ServiceAccount"
    && grants == [Grant(sa, Role("super", true, [PolicyRule(["*"], ["*"], ["*"], [])]), "")]
  }

  /** The only atom of the superuser's role. */
  lemma SuperAtom(sa: Subject, grants: seq<Grant>, p: Permission)
    requires IsSuper(sa, grants)
    ensures Holds(grants, sa.Key(), p) <==> p == Permission("*", "*", "*", "")
  {
    var rule := PolicyRule(["*"], ["*"], ["*"], []);
    assert grants[0] in grants && rule in grants[0].role.rules;
    assert AtomOf(rule, "", p) <==> p == Permission("*", "*", "*", "");
    if Holds(grants, sa.Key(), p) {
      var gr, r :| gr in grants && gr.subject.Key() == sa.Key() && r in gr.role.rules && AtomOf(r, gr.ns, p);
      assert r == rule;
    }
  }

  lemma StarGivesAll(a: Ability)
    ensures Gives(Permission("*", "*", "*", ""), a) && Unseen(Permission("*", "*", "*", ""), a)
  {
    assert WORKLOADS[0] in WORKLOADS;
    assert Covers(Permission("*", "*", "*", ""), "create", WORKLOADS[0]);
  }

  lemma SomeAbility(reason: Reason) returns (a: Ability)
    requires reason != BoundToAdmin && reason != StealsIdentity
    ensures a in AbilitiesOf(reason)
  {
    a := match reason
      case HoldsEscalate => Escalate
      case HoldsBind => BindRoles
      case HoldsImpersonate => Impersonate
      case ForgesCertificates => RequestCertificate
      case CreatesWorkloads => CreateWorkload
      case _ => ReachNode;
  }

  lemma NotAdmin(sa: Subject, grants: seq<Grant>)
    requires IsSuper(sa, grants)
    ensures !AdminBound(grants, sa.Key())
    ensures forall other :: IsServiceAccount(grants, other) ==> other == sa.Key()
  {
    assert |"super"| != |"cluster-admin"| && |"ServiceAccount"| != |"Group"|;
  }

  lemma SuperHasAbilities(sa: Subject, grants: seq<Grant>, a: Ability)
    requires IsSuper(sa, grants)
    ensures !Seen(grants, sa.Key(), a) && exists p :: MayBy(grants, sa.Key(), a, p)
  {
    var star := Permission("*", "*", "*", "");
    SuperAtom(sa, grants, star);
    StarGivesAll(a);
    assert MayBy(grants, sa.Key(), a, star);
    forall p | MayBy(grants, sa.Key(), a, p)
      ensures Unseen(p, a)
    {
      SuperAtom(sa, grants, p);
    }
  }

  lemma SuperHasNoEdge(sa: Subject, grants: seq<Grant>, e: Edge)
    requires IsSuper(sa, grants)
    ensures !HasEdge(grants, sa.Key(), e)
  {
    NotAdmin(sa, grants);
    if e.reason != BoundToAdmin && e.reason != StealsIdentity {
      PrimitiveIff(grants, sa.Key(), e.reason);
      var a := SomeAbility(e.reason);
      SuperHasAbilities(sa, grants, a);
    }
  }

  /** A service account that may do everything under a role of another name has every ability
      and no edge. */
  lemma SuperuserHasNoEdge(name: string, ns: string)
    ensures var sa := Subject("ServiceAccount", name, ns);
            var grants := [Grant(sa, Role("super", true, [PolicyRule(["*"], ["*"], ["*"], [])]), "")];
            && (forall reason :: May(grants, sa.Key(), reason))
            && (forall e :: !HasEdge(grants, sa.Key(), e))
  {
    var sa := Subject("ServiceAccount", name, ns);
    var grants := [Grant(sa, Role("super", true, [PolicyRule(["*"], ["*"], ["*"], [])]), "")];
    assert IsSuper(sa, grants);
    forall reason
      ensures May(grants, sa.Key(), reason)
    {
      forall a | a in AbilitiesOf(reason)
        ensures exists p :: MayBy(grants, sa.Key(), a, p)
      {
        SuperHasAbilities(sa, grants, a);
      }
    }
    forall e
      ensures !HasEdge(grants, sa.Key(), e)
    {
      SuperHasNoEdge(sa, grants, e);
    }
  }
}
