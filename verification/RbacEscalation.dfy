/** From permissions to escalation edges, and what adding bindings does to them. */
module RbacEscalation {
  import opened Lists
  import opened Options
  import opened RbacGraph
  import opened RbacSearch
  import opened SortedText
  import opened Text

  // ----- The permission index: membership of "verb|resource" strings -----

  predicate NoBar(s: string)
  {
    forall i :: 0 <= i < |s| ==> s[i] != '|'
  }

  function VR(verb: string, resource: string): string
  {
    verb + ['|'] + resource
  }

  /** A joined key with a single bar names exactly one pair. */
  lemma BarSplits(v: string, r: string, v': string, r': string)
    requires NoBar(v) && NoBar(r) && VR(v, r) == VR(v', r')
    ensures v == v' && r == r'
  {
    var s := VR(v, r);
    assert s[|v'|] == '|';
    assert forall i :: 0 <= i < |s| && i != |v| ==> s[i] != '|';
    assert s[..|v|] == v && s[..|v'|] == v';
    assert s[|v| + 1..] == r && s[|v'| + 1..] == r';
  }

  datatype PermIndex = PermIndex(byVR: set<string>, verbs: set<string>)
  {
    predicate Has(verb: string, resource: string) { VR(verb, resource) in byVR }

    predicate HasVerb(verb: string) { verb in verbs }

    predicate HasAnyResource(verb: string, resources: seq<string>)
    {
      exists r :: r in resources && Has(verb, r)
    }
  }

  function IndexF(ps: set<Permission>): PermIndex
  {
    PermIndex(set p | p in ps :: VR(p.verb, p.resource), set p | p in ps :: p.verb)
  }

  method IndexPerms(ps: seq<Permission>) returns (idx: PermIndex)
    ensures idx == IndexF(set p | p in ps)
  {
    idx := PermIndex({}, {});
    for i := 0 to |ps|
      invariant idx == IndexF(set p | p in ps[..i])
    {
      assert ps[..i + 1] == ps[..i] + [ps[i]];
      idx := PermIndex(idx.byVR + {VR(ps[i].verb, ps[i].resource)}, idx.verbs + {ps[i].verb});
    }
    assert ps[..|ps|] == ps;
  }

  /** For names without a bar the index answers exactly what the permissions say. */
  lemma IndexIsExact(ps: set<Permission>, verb: string, resource: string)
    requires NoBar(verb) && NoBar(resource)
    ensures IndexF(ps).Has(verb, resource) <==> exists p :: p in ps && p.verb == verb && p.resource == resource
    ensures IndexF(ps).HasVerb(verb) <==> exists p :: p in ps && p.verb == verb
  {
    if IndexF(ps).Has(verb, resource) {
      var p :| p in ps && VR(p.verb, p.resource) == VR(verb, resource);
      BarSplits(verb, resource, p.verb, p.resource);
    }
  }

  // ----- Identity theft -----

  predicate Steals(p: Permission)
  {
    || ((p.verb == "get" || p.verb == "list" || p.verb == "watch" || p.verb == "*") &&
        (p.resource == "secrets" || p.resource == "*"))
    || ((p.verb == "create" || p.verb == "*") &&
        (p.resource == "serviceaccounts/token" || p.resource == "tokenrequests"))
  }

  /** Stealing anywhere, and the namespaces stealing is limited to. */
  method IdentityTheftScope(ps: seq<Permission>) returns (clusterWide: bool, namespaces: set<string>)
    ensures clusterWide <==> exists p :: p in ps && Steals(p) && p.ns == ""
    ensures forall ns :: ns in namespaces <==> ns != "" && exists p :: p in ps && Steals(p) && p.ns == ns
  {
    clusterWide, namespaces := false, {};
    for i := 0 to |ps|
      invariant clusterWide <==> exists p :: p in ps[..i] && Steals(p) && p.ns == ""
      invariant forall ns :: ns in namespaces <==> ns != "" && exists p :: p in ps[..i] && Steals(p) && p.ns == ns
    {
      assert ps[..i + 1] == ps[..i] + [ps[i]];
      if Steals(ps[i]) {
        if ps[i].ns == "" {
          clusterWide := true;
        } else {
          namespaces := namespaces + {ps[i].ns};
        }
      }
    }
    assert ps[..|ps|] == ps;
  }

  /** strings.Split(s, "/"). */
  function SplitSlash(s: string): (parts: seq<string>)
    ensures parts != []
  {
    if s == [] then [""]
    else
      var rest := SplitSlash(s[1..]);
      if s[0] == '/' then [""] + rest else [[s[0]] + rest[0]] + rest[1..]
  }

  function SubjectNamespace(key: string): string
  {
    var parts := SplitSlash(key);
    if |parts| == 3 && parts[0] == "ServiceAccount" then parts[1] else ""
  }

  // ----- Edges -----

  /** The permissions a key holds, as a set. */
  ghost predicate Can(grants: seq<Grant>, key: string, verb: string, resource: string)
  {
    exists p :: Holds(grants, key, p) && p.verb == verb && p.resource == resource
  }

  ghost predicate CanVerb(grants: seq<Grant>, key: string, verb: string)
  {
    exists p :: Holds(grants, key, p) && p.verb == verb
  }

  predicate MakesAdmin(gr: Grant)
  {
    (gr.role.clusterScoped && gr.role.name == "cluster-admin") ||
    (gr.subject.kind == "Group" && gr.subject.name == "system:masters")
  }

  ghost predicate AdminBound(grants: seq<Grant>, key: string)
  {
    exists gr :: gr in grants && gr.subject.Key() == key && MakesAdmin(gr)
  }

  ghost predicate StealsFrom(grants: seq<Grant>, key: string, other: string)
  {
    exists p :: Holds(grants, key, p) && Steals(p) && (p.ns == "" || p.ns == SubjectNamespace(other))
  }

  ghost predicate IsServiceAccount(grants: seq<Grant>, key: string)
  {
    exists gr :: gr in grants && gr.subject.kind == "ServiceAccount" && gr.subject.Key() == key
  }

  const APPROVAL := "certificatesigningrequests/approval"
  const CSRS := "certificatesigningrequests"
  const WORKLOADS := ["pods", "deployments", "daemonsets", "statefulsets", "jobs"]

  /** The terminal a primitive leads to. */
  function TerminalOf(reason: Reason): string
  {
    if reason == CreatesWorkloads || reason == ReachesNodes then NODE_ROOT else CLUSTER_ADMIN
  }

  /** When a subject holds a primitive that leads straight to a terminal. */
  ghost predicate HasPrimitive(grants: seq<Grant>, key: string, reason: Reason)
  {
    match reason
    case BoundToAdmin => AdminBound(grants, key)
    case HoldsEscalate =>
      Can(grants, key, "escalate", "roles") || Can(grants, key, "escalate", "clusterroles") || Can(grants, key, "escalate", "*")
    case HoldsBind => Can(grants, key, "bind", "clusterroles") || Can(grants, key, "bind", "*")
    case HoldsImpersonate => CanVerb(grants, key, "impersonate")
    case ForgesCertificates =>
      (Can(grants, key, "create", CSRS) || Can(grants, key, "*", CSRS)) &&
      (Can(grants, key, "update", APPROVAL) || Can(grants, key, "*", "signers") || Can(grants, key, "*", APPROVAL))
    case CreatesWorkloads =>
      (exists r :: r in WORKLOADS && Can(grants, key, "create", r)) || Can(grants, key, "*", "pods")
    case ReachesNodes =>
      Can(grants, key, "get", "nodes/proxy") || Can(grants, key, "*", "nodes/proxy") || Can(grants, key, "get", "nodes")
    case StealsIdentity => false
  }

  /** The rule book: when a subject has an escalation edge. */
  ghost predicate HasEdge(grants: seq<Grant>, key: string, e: Edge)
  {
    if e.reason == StealsIdentity then e.to != key && IsServiceAccount(grants, e.to) && StealsFrom(grants, key, e.to)
    else e.to == TerminalOf(e.reason) && HasPrimitive(grants, key, e.reason)
  }

  method BoundToClusterAdmin(grants: seq<Grant>, key: string) returns (bound: bool)
    ensures bound <==> AdminBound(grants, key)
  {
    for i := 0 to |grants|
      invariant forall gr :: gr in grants[..i] ==> !(gr.subject.Key() == key && MakesAdmin(gr))
    {
      assert grants[..i + 1] == grants[..i] + [grants[i]];
      if grants[i].subject.Key() == key && MakesAdmin(grants[i]) {
        return true;
      }
    }
    assert grants[..|grants|] == grants;
    bound := false;
  }

  ghost predicate IsSubject(grants: seq<Grant>, key: string)
  {
    exists gr :: gr in grants && gr.subject.Key() == key
  }

  /** Every distinct subject, and every distinct service account. */
  method SubjectKeys(grants: seq<Grant>) returns (keys: seq<string>, accounts: seq<string>)
    ensures forall k :: k in keys <==> IsSubject(grants, k)
    ensures forall k :: k in accounts <==> IsServiceAccount(grants, k)
    ensures NoRepeats(keys) && NoRepeats(accounts)
  {
    keys, accounts := [], [];
    for i := 0 to |grants|
      invariant forall k :: k in keys <==> IsSubject(grants[..i], k)
      invariant forall k :: k in accounts <==> IsServiceAccount(grants[..i], k)
      invariant NoRepeats(keys) && NoRepeats(accounts)
    {
      assert grants[..i + 1] == grants[..i] + [grants[i]];
      var k := grants[i].subject.Key();
      if k !in keys {
        keys := keys + [k];
      }
      if grants[i].subject.kind == "ServiceAccount" && k !in accounts {
        accounts := accounts + [k];
      }
    }
    assert grants[..|grants|] == grants;
  }

  /** The index of what a key holds answers Can and CanVerb for names without a bar. */
  lemma IndexAnswers(grants: seq<Grant>, key: string, ps: set<Permission>, verb: string, resource: string)
    requires forall p :: p in ps <==> Holds(grants, key, p)
    requires NoBar(verb) && NoBar(resource)
    ensures IndexF(ps).Has(verb, resource) <==> Can(grants, key, verb, resource)
    ensures IndexF(ps).HasVerb(verb) <==> CanVerb(grants, key, verb)
  {
    IndexIsExact(ps, verb, resource);
  }

  /** The edges for the primitives held, in the order the source adds them. */
  function PrimitiveEdges(held: Reason -> bool, order: seq<Reason>): (edges: seq<Edge>)
    ensures forall e :: e in edges <==> e.reason in order && held(e.reason) && e.to == TerminalOf(e.reason)
  {
    if order == [] then [] else
    (if held(order[0]) then [Edge(TerminalOf(order[0]), order[0])] else []) + PrimitiveEdges(held, order[1..])
  }

  lemma {:induction false} PrimitiveEdgesDiffer(held: Reason -> bool, order: seq<Reason>)
    requires NoRepeats(order)
    ensures NoRepeats(PrimitiveEdges(held, order))
  {
    if order != [] {
      PrimitiveEdgesDiffer(held, order[1..]);
    }
  }

  const PRIMITIVES: seq<Reason> := [BoundToAdmin, HoldsEscalate, HoldsBind, HoldsImpersonate, ForgesCertificates,
                                    CreatesWorkloads, ReachesNodes]

  lemma PrimitivesAreAll(reason: Reason)
    ensures reason in PRIMITIVES <==> reason != StealsIdentity
  {
    assert PRIMITIVES[0] == BoundToAdmin && PRIMITIVES[1] == HoldsEscalate && PRIMITIVES[2] == HoldsBind;
    assert PRIMITIVES[3] == HoldsImpersonate && PRIMITIVES[4] == ForgesCertificates;
    assert PRIMITIVES[5] == CreatesWorkloads && PRIMITIVES[6] == ReachesNodes && |PRIMITIVES| == 7;
  }

  /** What TargetEdges knows of one subject: the index of all it holds. */
  ghost predicate Indexed(grants: seq<Grant>, key: string, perms: PermIndex, ps: set<Permission>)
  {
    perms == IndexF(ps) && forall p :: p in ps <==> Holds(grants, key, p)
  }

  /** The edges of one subject to the two terminal targets. */
  method TargetEdges(grants: seq<Grant>, key: string, perms: PermIndex, ghost ps: set<Permission>)
    returns (edges: seq<Edge>)
    requires Indexed(grants, key, perms, ps)
    ensures forall e :: e in edges <==> HasEdge(grants, key, e) && e.reason != StealsIdentity
    ensures NoRepeats(edges)
  {
    var bound := BoundToClusterAdmin(grants, key);
    var escalates := GrantsItself(grants, key, perms, ps);
    var binds := BindsAdmin(grants, key, perms, ps);
    var impersonates := Impersonates(grants, key, perms, ps);
    var forges := ForgesCerts(grants, key, perms, ps);
    var creates := CreatesPods(grants, key, perms, ps);
    var nodes := ReadsNodes(grants, key, perms, ps);
    var held := (r: Reason) =>
      match r
      case BoundToAdmin => bound
      case HoldsEscalate => escalates
      case HoldsBind => binds
      case HoldsImpersonate => impersonates
      case ForgesCertificates => forges
      case CreatesWorkloads => creates
      case ReachesNodes => nodes
      case StealsIdentity => false;
    edges := PrimitiveEdges(held, PRIMITIVES);
    HeldEdges(grants, key, held);
    PrimitiveEdgesDiffer(held, PRIMITIVES);
  }

  lemma HeldEdges(grants: seq<Grant>, key: string, held: Reason -> bool)
    requires forall r :: held(r) <==> HasPrimitive(grants, key, r)
    ensures forall e :: e in PrimitiveEdges(held, PRIMITIVES) <==> HasEdge(grants, key, e) && e.reason != StealsIdentity
  {
    forall e
      ensures e in PrimitiveEdges(held, PRIMITIVES) <==> HasEdge(grants, key, e) && e.reason != StealsIdentity
    {
      PrimitivesAreAll(e.reason);
    }
  }

  method GrantsItself(grants: seq<Grant>, key: string, perms: PermIndex, ghost ps: set<Permission>) returns (b: bool)
    requires Indexed(grants, key, perms, ps)
    ensures b <==> HasPrimitive(grants, key, HoldsEscalate)
  {
    IndexAnswers(grants, key, ps, "escalate", "roles");
    IndexAnswers(grants, key, ps, "escalate", "clusterroles");
    IndexAnswers(grants, key, ps, "escalate", "*");
    b := perms.Has("escalate", "roles") || perms.Has("escalate", "clusterroles") || perms.Has("escalate", "*");
  }

  method BindsAdmin(grants: seq<Grant>, key: string, perms: PermIndex, ghost ps: set<Permission>) returns (b: bool)
    requires Indexed(grants, key, perms, ps)
    ensures b <==> HasPrimitive(grants, key, HoldsBind)
  {
    IndexAnswers(grants, key, ps, "bind", "clusterroles");
    IndexAnswers(grants, key, ps, "bind", "*");
    b := perms.Has("bind", "clusterroles") || perms.Has("bind", "*");
  }

  method Impersonates(grants: seq<Grant>, key: string, perms: PermIndex, ghost ps: set<Permission>) returns (b: bool)
    requires Indexed(grants, key, perms, ps)
    ensures b <==> HasPrimitive(grants, key, HoldsImpersonate)
  {
    IndexAnswers(grants, key, ps, "impersonate", "");
    b := perms.HasVerb("impersonate");
  }

  method ReadsNodes(grants: seq<Grant>, key: string, perms: PermIndex, ghost ps: set<Permission>) returns (b: bool)
    requires Indexed(grants, key, perms, ps)
    ensures b <==> HasPrimitive(grants, key, ReachesNodes)
  {
    IndexAnswers(grants, key, ps, "get", "nodes/proxy");
    IndexAnswers(grants, key, ps, "*", "nodes/proxy");
    IndexAnswers(grants, key, ps, "get", "nodes");
    b := perms.Has("get", "nodes/proxy") || perms.Has("*", "nodes/proxy") || perms.Has("get", "nodes");
  }

  method ForgesCerts(grants: seq<Grant>, key: string, perms: PermIndex, ghost ps: set<Permission>) returns (b: bool)
    requires Indexed(grants, key, perms, ps)
    ensures b <==> HasPrimitive(grants, key, ForgesCertificates)
  {
    IndexAnswers(grants, key, ps, "create", CSRS);
    IndexAnswers(grants, key, ps, "*", CSRS);
    IndexAnswers(grants, key, ps, "update", APPROVAL);
    IndexAnswers(grants, key, ps, "*", "signers");
    IndexAnswers(grants, key, ps, "*", APPROVAL);
    b := (perms.Has("create", CSRS) || perms.Has("*", CSRS)) &&
         (perms.Has("update", APPROVAL) || perms.Has("*", "signers") || perms.Has("*", APPROVAL));
  }

  method CreatesPods(grants: seq<Grant>, key: string, perms: PermIndex, ghost ps: set<Permission>) returns (b: bool)
    requires Indexed(grants, key, perms, ps)
    ensures b <==> HasPrimitive(grants, key, CreatesWorkloads)
  {
    assert WORKLOADS[0] == "pods" && WORKLOADS[1] == "deployments" && WORKLOADS[2] == "daemonsets";
    assert WORKLOADS[3] == "statefulsets" && WORKLOADS[4] == "jobs" && |WORKLOADS| == 5;
    forall r | r in WORKLOADS
      ensures perms.Has("create", r) <==> Can(grants, key, "create", r)
    {
      IndexAnswers(grants, key, ps, "create", r);
    }
    IndexAnswers(grants, key, ps, "*", "pods");
    b := perms.HasAnyResource("create", WORKLOADS) || perms.Has("*", "pods");
  }

  /** The edges of one subject to the identities it can assume. */
  method TheftEdges(grants: seq<Grant>, key: string, permList: seq<Permission>, accounts: seq<string>)
    returns (edges: seq<Edge>)
    requires forall p :: p in permList <==> Holds(grants, key, p)
    requires forall k :: k in accounts <==> IsServiceAccount(grants, k)
    requires NoRepeats(accounts)
    ensures forall e :: e in edges <==> HasEdge(grants, key, e) && e.reason == StealsIdentity
    ensures NoRepeats(edges)
  {
    edges := [];
    var clusterSteal, stealNS := IdentityTheftScope(permList);
    for i := 0 to |accounts|
      invariant forall e :: e in edges <==>
        e.reason == StealsIdentity && e.to in accounts[..i] && e.to != key && StealsFrom(grants, key, e.to)
      invariant NoRepeats(edges)
    {
      var other := accounts[i];
      assert accounts[..i + 1] == accounts[..i] + [other];
      assert (clusterSteal || SubjectNamespace(other) in stealNS) <==> StealsFrom(grants, key, other);
      if other != key && (clusterSteal || SubjectNamespace(other) in stealNS) {
        edges := edges + [Edge(other, StealsIdentity)];
      }
    }
    assert accounts[..|accounts|] == accounts;
  }

  /** An edge needs a grant to its holder. */
  lemma EdgeNeedsSubject(grants: seq<Grant>, key: string, e: Edge)
    requires HasEdge(grants, key, e)
    ensures IsSubject(grants, key)
  {}

  lemma KeyHasSlash(sub: Subject)
    ensures exists i :: 0 <= i < |sub.Key()| && sub.Key()[i] == '/'
  {
    var i := if sub.kind == "ServiceAccount" then 14 else |sub.kind|;
    assert sub.Key()[i] == '/';
  }

  lemma TargetHasNoSlash(t: string)
    requires IsTarget(t)
    ensures forall i :: 0 <= i < |t| ==> t[i] != '/'
  {}

  /** What the reports call the principal or target at the end of an edge. */
  function AccountName(key: string): string
  {
    if "ServiceAccount/" <= key then key[15..] else key
  }

  /** How the narration of an edge begins, which tells the primitives apart. */
  function Head(reason: Reason): string
  {
    match reason
    case BoundToAdmin => "bound"
    case HoldsEscalate => "holds 'esc"
    case HoldsBind => "holds 'bin"
    case HoldsImpersonate => "holds 'imp"
    case ForgesCertificates => "can create a"
    case CreatesWorkloads => "can create w"
    case ReachesNodes => "has n"
    case StealsIdentity => "can r"
  }

  /** The narration of an edge. */
  function Narration(e: Edge): string
  {
    Head(e.reason) +
    match e.reason
    case BoundToAdmin => " directly to cluster-admin/system:masters"
    case HoldsEscalate => "alate' \U{2014} can self-grant any permission"
    case HoldsBind => "d' \U{2014} can bind cluster-admin to itself"
    case HoldsImpersonate => "ersonate' \U{2014} can impersonate system:masters"
    case ForgesCertificates => "nd approve CSRs \U{2014} forge a system:masters client cert"
    case CreatesWorkloads => "orkloads \U{2014} schedule a privileged pod to gain host root"
    case ReachesNodes => "ode/kubelet access \U{2014} reach every pod on a node"
    case StealsIdentity => "ead Secrets / mint tokens \U{2014} assume identity " + AccountName(e.to)
  }

  predicate EdgeLess(a: Edge, b: Edge)
  {
    if a.to != b.to then TextLess(a.to, b.to) else TextLess(Narration(a), Narration(b))
  }

  lemma EdgesRank()
    ensures Ranks(EdgeLess)
  {
    TextRanks();
    forall a, b
      ensures TextLess(a, b) || TextLess(b, a) || a == b
    {
      TextLessIsTotal(a, b);
    }
  }

  lemma HeadComesFirst(e: Edge)
    ensures Head(e.reason) <= Narration(e)
  {}

  lemma NarrationsDiffer(a: Edge, b: Edge)
    requires a.reason != b.reason
    ensures Narration(a) != Narration(b)
  {
    HeadComesFirst(a);
    HeadComesFirst(b);
    HeadMarks(a.reason);
    HeadMarks(b.reason);
  }

  lemma HeadMarks(reason: Reason)
    ensures var t := Head(reason);
            match reason
            case BoundToAdmin => |t| == 5 && t[0] == 'b'
            case HoldsEscalate => |t| == 10 && t[0] == 'h' && t[1] == 'o' && t[7] == 'e'
            case HoldsBind => |t| == 10 && t[0] == 'h' && t[1] == 'o' && t[7] == 'b'
            case HoldsImpersonate => |t| == 10 && t[0] == 'h' && t[1] == 'o' && t[7] == 'i'
            case ForgesCertificates => |t| == 12 && t[0] == 'c' && t[4] == 'c' && t[11] == 'a'
            case CreatesWorkloads => |t| == 12 && t[0] == 'c' && t[4] == 'c' && t[11] == 'w'
            case ReachesNodes => |t| == 5 && t[0] == 'h' && t[1] == 'a'
            case StealsIdentity => |t| == 5 && t[0] == 'c' && t[4] == 'r'
  {}

  /** Two edges of one subject are never tied. */
  lemma EdgesDiffer(grants: seq<Grant>, key: string, a: Edge, b: Edge)
    requires HasEdge(grants, key, a) && HasEdge(grants, key, b) && a != b
    ensures EdgeLess(a, b) || EdgeLess(b, a)
  {
    TextLessIsTotal(a.to, b.to);
    if a.to == b.to {
      if a.reason == StealsIdentity {
        StolenIsNoTarget(grants, key, a);
        assert false;
      } else if b.reason == StealsIdentity {
        StolenIsNoTarget(grants, key, b);
        assert false;
      } else {
        NarrationsDiffer(a, b);
        TextLessIsTotal(Narration(a), Narration(b));
      }
    }
  }

  lemma StolenIsNoTarget(grants: seq<Grant>, key: string, e: Edge)
    requires HasEdge(grants, key, e) && e.reason == StealsIdentity
    ensures !IsTarget(e.to)
  {
    var gr :| gr in grants && gr.subject.kind == "ServiceAccount" && gr.subject.Key() == e.to;
    KeyHasSlash(gr.subject);
    if IsTarget(e.to) {
      TargetHasNoSlash(e.to);
    }
  }

  /** The edges of one subject: exactly the rule book, ordered by end and narration. */
  method SubjectEdges(grants: seq<Grant>, key: string, accounts: seq<string>) returns (edges: seq<Edge>)
    requires NoRepeats(accounts) && forall k :: k in accounts <==> IsServiceAccount(grants, k)
    ensures forall e :: e in edges <==> HasEdge(grants, key, e)
    ensures Strict(edges, EdgeLess)
  {
    var permList := SubjectPermissions(grants, key);
    var perms := IndexPerms(permList);
    var direct := TargetEdges(grants, key, perms, set p | p in permList);
    var theft := TheftEdges(grants, key, permList, accounts);
    var all := direct + theft;
    AllDiffer(grants, key, direct, theft, all);
    EdgesRank();
    SortStrict(all, EdgeLess);
    SortMembers(all, EdgeLess);
    edges := StableSort(all, EdgeLess);
  }

  lemma AllDiffer(grants: seq<Grant>, key: string, direct: seq<Edge>, theft: seq<Edge>, all: seq<Edge>)
    requires NoRepeats(direct) && NoRepeats(theft) && all == direct + theft
    requires forall e :: e in direct <==> HasEdge(grants, key, e) && e.reason != StealsIdentity
    requires forall e :: e in theft <==> HasEdge(grants, key, e) && e.reason == StealsIdentity
    ensures forall e :: e in all <==> HasEdge(grants, key, e)
    ensures forall i, j :: 0 <= i < j < |all| ==> EdgeLess(all[i], all[j]) || EdgeLess(all[j], all[i])
  {
    forall i, j | 0 <= i < j < |all|
      ensures EdgeLess(all[i], all[j]) || EdgeLess(all[j], all[i])
    {
      assert all[i] in all && all[j] in all;
      if i < |direct| <= j {
        assert all[i] in direct && all[j] in theft;
      }
      EdgesDiffer(grants, key, all[i], all[j]);
    }
  }

  /** buildEscalationEdges: exactly the edges of the rule book, for every principal, in a fixed
      order. */
  method BuildEscalationEdges(grants: seq<Grant>) returns (adj: Edges)
    ensures forall k, e :: e in Out(adj, k) <==> HasEdge(grants, k, e)
    ensures forall k :: Strict(Out(adj, k), EdgeLess)
  {
    adj := map[];
    var keys, accounts := SubjectKeys(grants);
    for i := 0 to |keys|
      invariant forall k :: k in adj ==> k in keys[..i]
      invariant forall k, e :: k in keys[..i] ==> (e in Out(adj, k) <==> HasEdge(grants, k, e))
      invariant forall k :: Strict(Out(adj, k), EdgeLess)
    {
      var sk := keys[i];
      assert keys[..i + 1] == keys[..i] + [sk];
      var edges := SubjectEdges(grants, sk, accounts);
      ghost var earlier := adj;
      adj := adj[sk := edges];
      assert forall k :: Out(adj, k) == if k == sk then edges else Out(earlier, k);
    }
    assert keys[..|keys|] == keys;
    forall k, e | k !in keys
      ensures e in Out(adj, k) <==> HasEdge(grants, k, e)
    {
      if HasEdge(grants, k, e) {
        EdgeNeedsSubject(grants, k, e);
        assert false;
      }
    }
  }

  // ----- Adding bindings only adds -----

  ghost predicate MoreBindings(c: Cluster, c': Cluster)
  {
    c'.roles == c.roles && forall b :: b in c.bindings ==> b in c'.bindings
  }

  /** Grants of a cluster, as buildGraph delivers them. */
  ghost predicate GrantsOf(c: Cluster, grants: seq<Grant>)
  {
    forall gr :: gr in grants <==> Granted(c, gr)
  }

  ghost predicate EdgesOf(grants: seq<Grant>, adj: Edges)
  {
    forall k, e :: e in Out(adj, k) <==> HasEdge(grants, k, e)
  }

  lemma MoreGrants(c: Cluster, c': Cluster, gs: seq<Grant>, gs': seq<Grant>)
    requires MoreBindings(c, c') && GrantsOf(c, gs) && GrantsOf(c', gs')
    ensures forall gr :: gr in gs ==> gr in gs'
  {
    forall gr | gr in gs
      ensures gr in gs'
    {
      assert Granted(c, gr);
      var b :| b in c.bindings && gr.subject in b.subjects && ResolveRole(c, b) == Some(gr.role) && gr.ns == GrantScope(b);
      assert ResolveRole(c', b) == ResolveRole(c, b);
      assert Granted(c', gr);
    }
  }

  lemma MorePermissions(gs: seq<Grant>, gs': seq<Grant>, key: string, p: Permission)
    requires (forall gr :: gr in gs ==> gr in gs') && Holds(gs, key, p)
    ensures Holds(gs', key, p)
  {}

  lemma MoreEdges(gs: seq<Grant>, gs': seq<Grant>, key: string, e: Edge)
    requires (forall gr :: gr in gs ==> gr in gs') && HasEdge(gs, key, e)
    ensures HasEdge(gs', key, e)
  {
    forall p | Holds(gs, key, p)
      ensures Holds(gs', key, p)
    {
      MorePermissions(gs, gs', key, p);
    }
    forall verb, resource | Can(gs, key, verb, resource)
      ensures Can(gs', key, verb, resource)
    {
      var p :| Holds(gs, key, p) && p.verb == verb && p.resource == resource;
      assert Holds(gs', key, p);
    }
  }

  /** Adding bindings keeps every permission, every escalation edge and every reachable
      principal, and an escalation found before is still there, no longer than before. */
  lemma AddingBindingsOnlyAdds(c: Cluster, c': Cluster, gs: seq<Grant>, gs': seq<Grant>, adj: Edges, adj': Edges,
      start: string)
    requires MoreBindings(c, c') && GrantsOf(c, gs) && GrantsOf(c', gs')
    requires EdgesOf(gs, adj) && EdgesOf(gs', adj')
    ensures forall key, p :: Holds(gs, key, p) ==> Holds(gs', key, p)
    ensures MoreOut(adj, adj')
    ensures forall v :: Reachable(adj, start, v) ==> Reachable(adj', start, v)
    ensures forall w :: Escalates(adj, start, w) ==> Escalates(adj', start, w)
  {
    MoreGrants(c, c', gs, gs');
    forall key, p | Holds(gs, key, p)
      ensures Holds(gs', key, p)
    {
      MorePermissions(gs, gs', key, p);
    }
    forall k, e | e in Out(adj, k)
      ensures e in Out(adj', k)
    {
      MoreEdges(gs, gs', k, e);
    }
    forall w | Escalates(adj, start, w)
      ensures Escalates(adj', start, w)
    {
      MoreEdgesWalk(adj, adj', start, w);
    }
    forall v | Reachable(adj, start, v)
      ensures Reachable(adj', start, v)
    {
      var n: nat :| Reaches(adj, start, v, n);
      MoreEdgesReach(adj, adj', start, v, n);
    }
  }

  /** w escalates, and nothing escalates in fewer hops. */
  ghost predicate IsNearest(adj: Edges, start: string, w: seq<Edge>)
  {
    Escalates(adj, start, w) && forall v :: Escalates(adj, start, v) ==> |w| <= |v|
  }

  ghost predicate MoreOut(adj: Edges, adj': Edges)
  {
    forall k, e :: e in Out(adj, k) ==> e in Out(adj', k)
  }

  lemma MoreEdgesWalk(adj: Edges, adj': Edges, start: string, w: seq<Edge>)
    requires MoreOut(adj, adj') && IsWalk(adj, start, w)
    ensures IsWalk(adj', start, w)
  {
    forall i | 0 <= i < |w|
      ensures Hop(adj', start, w, i)
    {
      assert Hop(adj, start, w, i);
    }
  }

  lemma MoreEdgesReach(adj: Edges, adj': Edges, start: string, v: string, n: nat)
    requires MoreOut(adj, adj') && Reaches(adj, start, v, n)
    ensures Reaches(adj', start, v, n)
  {
    var w := ReachesByWalk(adj, start, v, n);
    MoreEdgesWalk(adj, adj', start, w);
    FreeWalkReaches(adj', start, w, n);
  }

  /** Subjects never collide with the terminal targets, so targets are sinks of the graph. */
  lemma TargetsAreSinks(grants: seq<Grant>, adj: Edges, t: string)
    requires EdgesOf(grants, adj) && IsTarget(t)
    ensures Out(adj, t) == []
  {
    if Out(adj, t) != [] {
      var e := Out(adj, t)[0];
      assert HasEdge(grants, t, e);
      EdgeNeedsSubject(grants, t, e);
      var gr :| gr in grants && gr.subject.Key() == t;
      TargetHasNoSlash(t);
      KeyHasSlash(gr.subject);
    }
  }
}
