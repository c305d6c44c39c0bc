/** Breadth-first search over escalation edges: the nearest terminal target with the hops that
    lead to it, and the blast radius of an identity. */
module RbacSearch {
  import opened Options

  const CLUSTER_ADMIN := "target:cluster-admin"
  const NODE_ROOT := "target:node-root"

  predicate IsTarget(k: string)
  {
    k == CLUSTER_ADMIN || k == NODE_ROOT
  }

  /** The escalation primitive an edge stands for. */
  datatype Reason =
    | BoundToAdmin | HoldsEscalate | HoldsBind | HoldsImpersonate | ForgesCertificates
    | CreatesWorkloads | ReachesNodes | StealsIdentity

  datatype Edge = Edge(to: string, reason: Reason)

  type Edges = map<string, seq<Edge>>

  function Out(adj: Edges, k: string): seq<Edge>
  {
    if k in adj then adj[k] else []
  }

  // ----- Walks -----

  /** The principal a walk has reached after i hops. */
  function At(start: string, w: seq<Edge>, i: nat): string
    requires i <= |w|
  {
    if i == 0 then start else w[i - 1].to
  }

  /** The i-th hop is an edge of the principal reached before it. */
  ghost predicate Hop(adj: Edges, start: string, w: seq<Edge>, i: nat)
    requires i < |w|
  {
    w[i] in Out(adj, At(start, w, i))
  }

  ghost predicate IsWalk(adj: Edges, start: string, w: seq<Edge>)
  {
    forall i {:trigger Hop(adj, start, w, i)} :: 0 <= i < |w| ==> Hop(adj, start, w, i)
  }

  /** None of the first n hops leads to a target. */
  ghost predicate Free(w: seq<Edge>, n: nat)
    requires n <= |w|
  {
    forall i :: 0 <= i < n ==> !IsTarget(w[i].to)
  }

  /** A walk of at least one hop that ends at a target. */
  ghost predicate Escalates(adj: Edges, start: string, w: seq<Edge>)
  {
    IsWalk(adj, start, w) && w != [] && IsTarget(w[|w| - 1].to)
  }

  /** v can be reached in exactly n hops, none of them to a target. */
  ghost predicate Reaches(adj: Edges, start: string, v: string, n: nat)
    decreases n
  {
    if n == 0 then v == start
    else !IsTarget(v) && exists u, e :: Reaches(adj, start, u, n - 1) && e in Out(adj, u) && e.to == v
  }

  lemma {:induction false} FreeWalkReaches(adj: Edges, start: string, w: seq<Edge>, n: nat)
    requires IsWalk(adj, start, w) && n <= |w| && Free(w, n)
    ensures Reaches(adj, start, At(start, w, n), n)
    decreases n
  {
    if n > 0 {
      FreeWalkReaches(adj, start, w, n - 1);
      assert Hop(adj, start, w, n - 1);
      ReachesOneMore(adj, start, At(start, w, n - 1), n - 1, w[n - 1]);
    }
  }

  lemma ReachesOneMore(adj: Edges, start: string, u: string, n: nat, e: Edge)
    requires Reaches(adj, start, u, n) && e in Out(adj, u) && !IsTarget(e.to)
    ensures Reaches(adj, start, e.to, n + 1)
  {}

  /** One more hop at the end of a walk. */
  lemma WalkOneMore(adj: Edges, start: string, p: seq<Edge>, e: Edge, w: seq<Edge>)
    requires IsWalk(adj, start, p) && e in Out(adj, At(start, p, |p|)) && w == p + [e]
    ensures IsWalk(adj, start, w) && At(start, w, |w|) == e.to
    ensures Free(p, |p|) && !IsTarget(e.to) ==> Free(w, |w|)
  {
    assert w[|p|] == e && forall i :: 0 <= i < |p| ==> w[i] == p[i];
    forall i | 0 <= i < |w|
      ensures Hop(adj, start, w, i)
    {
      assert i < |p| ==> Hop(adj, start, p, i);
      assert At(start, w, i) == At(start, p, i);
    }
  }

  lemma {:induction false} ReachesByWalk(adj: Edges, start: string, v: string, n: nat) returns (w: seq<Edge>)
    requires Reaches(adj, start, v, n)
    ensures IsWalk(adj, start, w) && |w| == n && Free(w, n) && At(start, w, n) == v
    decreases n
  {
    if n == 0 {
      w := [];
    } else {
      var u, e :| Reaches(adj, start, u, n - 1) && e in Out(adj, u) && e.to == v;
      var p := ReachesByWalk(adj, start, u, n - 1);
      w := p + [e];
      WalkOneMore(adj, start, p, e, w);
    }
  }

  lemma {:induction false} FirstTarget(adj: Edges, start: string, w: seq<Edge>, n: nat) returns (k: nat)
    requires IsWalk(adj, start, w) && n < |w| && IsTarget(w[n].to)
    ensures k <= n && IsTarget(w[k].to) && Free(w, k)
    decreases n
  {
    if i: nat :| i < n && IsTarget(w[i].to) {
      k := FirstTarget(adj, start, w, i);
    } else {
      k := n;
    }
  }

  /** An escalation leaves some principal u, reached in fewer hops, straight for a target. */
  lemma LastStep(adj: Edges, start: string, w: seq<Edge>) returns (k: nat, u: string, e: Edge)
    requires Escalates(adj, start, w)
    ensures k < |w| && Reaches(adj, start, u, k) && e in Out(adj, u) && IsTarget(e.to)
  {
    k := FirstTarget(adj, start, w, |w| - 1);
    u, e := At(start, w, k), w[k];
    FreeWalkReaches(adj, start, w, k);
    assert Hop(adj, start, w, k);
  }

  // ----- The search frontier -----

  /** A queued principal with the hops that lead to it. */
  datatype Item = Item(key: string, path: seq<Edge>)

  /** What the search knows: how far each principal seen is, those whose edges were all
      scanned, and the queue. */
  datatype Search = Search(dist: map<string, nat>, done: set<string>, queue: seq<Item>)

  ghost predicate InQueue(queue: seq<Item>, v: string)
  {
    exists i :: 0 <= i < |queue| && queue[i].key == v
  }

  /** The hops lead from start to the queued principal without passing a target. */
  ghost predicate Leads(adj: Edges, start: string, it: Item)
  {
    IsWalk(adj, start, it.path) && Free(it.path, |it.path|) && At(start, it.path, |it.path|) == it.key
  }

  /** it stands for a walk of known length still to be scanned. */
  ghost predicate ItemOk(s: Search, it: Item)
  {
    it.key in s.dist && s.dist[it.key] == |it.path| && it.key !in s.done
  }

  /** The queue holds distinct principals, nearest first, none nearer than d. */
  ghost predicate QueueOk(queue: seq<Item>, d: nat)
  {
    && (forall i, j :: 0 <= i < j < |queue| ==> queue[i].key != queue[j].key)
    && (forall i, j :: 0 <= i < j < |queue| ==> |queue[i].path| <= |queue[j].path|)
    && (forall i :: 0 <= i < |queue| ==> d <= |queue[i].path|)
  }

  /** All edges of v lead to seen principals, none to a target. */
  ghost predicate Scanned(adj: Edges, s: Search, v: string)
  {
    forall e :: e in Out(adj, v) ==> !IsTarget(e.to) && e.to in s.dist
  }

  /** Whatever n hops can reach is known to be that near. */
  ghost predicate Known(adj: Edges, start: string, s: Search, n: nat)
  {
    forall v :: Reaches(adj, start, v, n) ==> v in s.dist && s.dist[v] <= n
  }

  /** A principal seen is at most one hop beyond d, and scanned, being scanned, or queued. */
  ghost predicate Placed(s: Search, d: nat, extra: set<string>, v: string)
  {
    v in s.dist && s.dist[v] <= d + 1 && (v in s.done || v in extra || InQueue(s.queue, v))
  }

  ghost predicate Queued(adj: Edges, start: string, s: Search, extra: set<string>, it: Item)
  {
    Leads(adj, start, it) && ItemOk(s, it) && it.key !in extra
  }

  /** The frontier at depth d, while the edges of `extra` are being scanned. */
  ghost predicate Frontier(adj: Edges, start: string, s: Search, d: nat, extra: set<string>)
  {
    && start in s.dist && s.done <= s.dist.Keys
    && QueueOk(s.queue, d)
    && (forall i {:trigger Queued(adj, start, s, extra, s.queue[i])} :: 0 <= i < |s.queue| ==>
          Queued(adj, start, s, extra, s.queue[i]))
    && (forall v {:trigger Placed(s, d, extra, v)} :: v in s.dist ==> Placed(s, d, extra, v))
    && (forall v {:trigger Scanned(adj, s, v)} :: v in s.done ==> Scanned(adj, s, v))
    && (forall n: nat {:trigger Known(adj, start, s, n)} :: n <= d ==> Known(adj, start, s, n))
  }

  /** The principal being scanned sits at depth d. */
  ghost predicate Scanning(adj: Edges, start: string, s: Search, d: nat, cur: Item)
  {
    Frontier(adj, start, s, d, {cur.key}) && ItemOk(s, cur) && Leads(adj, start, cur) && |cur.path| == d
  }

  /** The first i edges lead to seen principals, none to a target. */
  ghost predicate ScannedTo(edges: seq<Edge>, i: nat, s: Search)
    requires i <= |edges|
  {
    forall j :: 0 <= j < i ==> !IsTarget(edges[j].to) && edges[j].to in s.dist
  }

  lemma DiscoverScans(edges: seq<Edge>, i: nat, s: Search, cur: Item)
    requires i < |edges| && ScannedTo(edges, i, s) && !IsTarget(edges[i].to)
    ensures ScannedTo(edges, i + 1, Discover(s, cur, edges[i]))
  {}

  function Discover(s: Search, cur: Item, e: Edge): Search
  {
    if e.to in s.dist then s else
    s.(dist := s.dist[e.to := |cur.path| + 1], queue := s.queue + [Item(e.to, cur.path + [e])])
  }

  lemma FrontierStarts(adj: Edges, start: string)
    ensures Frontier(adj, start, Search(map[start := 0], {}, [Item(start, [])]), 0, {})
  {
    var s := Search(map[start := 0], {}, [Item(start, [])]);
    assert s.queue[0].key == start;
    assert Queued(adj, start, s, {}, s.queue[0]) && Placed(s, 0, {}, start);
    assert Known(adj, start, s, 0);
  }

  lemma PopScans(adj: Edges, start: string, s: Search, d: nat)
    requires Frontier(adj, start, s, d, {}) && s.queue != [] && |s.queue[0].path| == d
    ensures Scanning(adj, start, s.(queue := s.queue[1..]), d, s.queue[0])
  {
    var t := s.(queue := s.queue[1..]);
    var cur := s.queue[0];
    assert Queued(adj, start, s, {}, cur);
    forall i | 0 <= i < |t.queue|
      ensures Queued(adj, start, t, {cur.key}, t.queue[i])
    {
      assert t.queue[i] == s.queue[i + 1] && Queued(adj, start, s, {}, s.queue[i + 1]);
    }
    forall v | v in t.dist
      ensures Placed(t, d, {cur.key}, v)
    {
      assert Placed(s, d, {}, v);
      if v !in s.done {
        var i :| 0 <= i < |s.queue| && s.queue[i].key == v;
        assert i == 0 || t.queue[i - 1].key == v;
      }
    }
    KeepsScanned(adj, start, s, t, d);
  }

  /** Seeing more principals undoes nothing. */
  lemma KeepsScanned(adj: Edges, start: string, s: Search, t: Search, d: nat)
    requires forall v :: v in s.dist ==> v in t.dist && t.dist[v] == s.dist[v]
    requires forall v {:trigger Scanned(adj, s, v)} :: v in s.done ==> Scanned(adj, s, v)
    requires forall n: nat {:trigger Known(adj, start, s, n)} :: n <= d ==> Known(adj, start, s, n)
    ensures forall v {:trigger Scanned(adj, t, v)} :: v in s.done ==> Scanned(adj, t, v)
    ensures forall n: nat {:trigger Known(adj, start, t, n)} :: n <= d ==> Known(adj, start, t, n)
  {
    forall v | v in s.done
      ensures Scanned(adj, t, v)
    {
      assert Scanned(adj, s, v);
    }
    forall n: nat | n <= d
      ensures Known(adj, start, t, n)
    {
      assert Known(adj, start, s, n);
    }
  }

  lemma ExtendWalk(adj: Edges, start: string, cur: Item, e: Edge)
    requires Leads(adj, start, cur) && e in Out(adj, cur.key)
    ensures IsWalk(adj, start, cur.path + [e])
    ensures !IsTarget(e.to) ==> Leads(adj, start, Item(e.to, cur.path + [e]))
  {
    WalkOneMore(adj, start, cur.path, e, cur.path + [e]);
  }

  lemma DiscoverKeeps(adj: Edges, start: string, s: Search, d: nat, cur: Item, e: Edge)
    requires Scanning(adj, start, s, d, cur) && e in Out(adj, cur.key) && !IsTarget(e.to)
    ensures Scanning(adj, start, Discover(s, cur, e), d, cur)
  {
    var t := Discover(s, cur, e);
    if e.to !in s.dist {
      ExtendWalk(adj, start, cur, e);
      DiscoverQueue(adj, start, s, d, cur, e);
      DiscoverOrders(adj, start, s, d, cur, e);
      DiscoverPlaces(adj, start, s, d, cur, e);
      KeepsScanned(adj, start, s, t, d);
    }
  }

  lemma DiscoverQueue(adj: Edges, start: string, s: Search, d: nat, cur: Item, e: Edge)
    requires Scanning(adj, start, s, d, cur) && e in Out(adj, cur.key) && e.to !in s.dist
    requires Leads(adj, start, Item(e.to, cur.path + [e]))
    ensures var t := Discover(s, cur, e);
            forall i {:trigger Queued(adj, start, t, {cur.key}, t.queue[i])} ::
              0 <= i < |t.queue| ==> Queued(adj, start, t, {cur.key}, t.queue[i])
  {
    var t := Discover(s, cur, e);
    forall i | 0 <= i < |t.queue|
      ensures Queued(adj, start, t, {cur.key}, t.queue[i])
    {
      if i < |s.queue| {
        assert t.queue[i] == s.queue[i] && Queued(adj, start, s, {cur.key}, s.queue[i]);
      }
    }
  }

  lemma DiscoverOrders(adj: Edges, start: string, s: Search, d: nat, cur: Item, e: Edge)
    requires Scanning(adj, start, s, d, cur) && e.to !in s.dist
    ensures QueueOk(Discover(s, cur, e).queue, d)
  {
    forall i | 0 <= i < |s.queue|
      ensures |s.queue[i].path| <= d + 1 && s.queue[i].key != e.to
    {
      assert Queued(adj, start, s, {cur.key}, s.queue[i]);
      assert Placed(s, d, {cur.key}, s.queue[i].key);
    }
  }

  lemma DiscoverPlaces(adj: Edges, start: string, s: Search, d: nat, cur: Item, e: Edge)
    requires Scanning(adj, start, s, d, cur) && e.to !in s.dist
    ensures var t := Discover(s, cur, e);
            forall v {:trigger Placed(t, d, {cur.key}, v)} :: v in t.dist ==> Placed(t, d, {cur.key}, v)
  {
    var t := Discover(s, cur, e);
    var n := |s.queue|;
    assert t.queue[n].key == e.to;
    forall v | v in t.dist
      ensures Placed(t, d, {cur.key}, v)
    {
      if v != e.to {
        assert Placed(s, d, {cur.key}, v);
        if v !in s.done && v != cur.key {
          var i :| 0 <= i < n && s.queue[i].key == v;
          assert t.queue[i].key == v;
        }
      }
    }
  }

  /** The depth of the next queued principal. */
  function NextDepth(queue: seq<Item>, d: nat): nat
  {
    if queue == [] then d else |queue[0].path|
  }

  /** With cur scanned, the frontier moves to the depth of the next queued principal. */
  lemma FinishKeeps(adj: Edges, start: string, s: Search, d: nat, cur: Item, t: Search, d': nat)
    requires Scanning(adj, start, s, d, cur) && Scanned(adj, s, cur.key) && t == s.(done := s.done + {cur.key})
    requires d' == NextDepth(t.queue, d)
    ensures Frontier(adj, start, t, d', {})
  {
    FinishDepth(adj, start, s, d, cur);
    FinishAtDepth(adj, start, s, d, cur, t);
    if d' != d {
      assert d' == d + 1;
      Deepen(adj, start, t, d);
    }
  }

  lemma FinishAtDepth(adj: Edges, start: string, s: Search, d: nat, cur: Item, t: Search)
    requires Scanning(adj, start, s, d, cur) && Scanned(adj, s, cur.key) && t == s.(done := s.done + {cur.key})
    ensures Frontier(adj, start, t, d, {})
  {
    FinishQueued(adj, start, s, d, cur, t);
    FinishPlaced(adj, start, s, d, cur, t);
    KeepsScanned(adj, start, s, t, d);
  }

  lemma Deepen(adj: Edges, start: string, t: Search, d: nat)
    requires Frontier(adj, start, t, d, {}) && QueueOk(t.queue, d + 1)
    ensures Frontier(adj, start, t, d + 1, {})
  {
    PlacedDeeper(t, d);
    assert Known(adj, start, t, d);
    NextDepthKnown(adj, start, t, d);
  }

  lemma FinishDepth(adj: Edges, start: string, s: Search, d: nat, cur: Item)
    requires Scanning(adj, start, s, d, cur)
    ensures d <= NextDepth(s.queue, d) <= d + 1 && QueueOk(s.queue, NextDepth(s.queue, d))
  {
    if s.queue != [] {
      assert Queued(adj, start, s, {cur.key}, s.queue[0]);
      assert Placed(s, d, {cur.key}, s.queue[0].key);
    }
  }

  lemma PlacedDeeper(t: Search, d: nat)
    requires forall v {:trigger Placed(t, d, {}, v)} :: v in t.dist ==> Placed(t, d, {}, v)
    ensures forall v {:trigger Placed(t, d + 1, {}, v)} :: v in t.dist ==> Placed(t, d + 1, {}, v)
  {
    forall v | v in t.dist
      ensures Placed(t, d + 1, {}, v)
    {
      assert Placed(t, d, {}, v);
    }
  }

  lemma FinishQueued(adj: Edges, start: string, s: Search, d: nat, cur: Item, t: Search)
    requires Scanning(adj, start, s, d, cur) && t == s.(done := s.done + {cur.key})
    ensures forall i {:trigger Queued(adj, start, t, {}, t.queue[i])} :: 0 <= i < |t.queue| ==>
              Queued(adj, start, t, {}, t.queue[i])
  {
    forall i | 0 <= i < |t.queue|
      ensures Queued(adj, start, t, {}, t.queue[i])
    {
      assert Queued(adj, start, s, {cur.key}, s.queue[i]);
    }
  }

  lemma FinishPlaced(adj: Edges, start: string, s: Search, d: nat, cur: Item, t: Search)
    requires Scanning(adj, start, s, d, cur) && Scanned(adj, s, cur.key) && t == s.(done := s.done + {cur.key})
    ensures forall v {:trigger Placed(t, d, {}, v)} :: v in t.dist ==> Placed(t, d, {}, v)
    ensures forall v {:trigger Scanned(adj, t, v)} :: v in t.done ==> Scanned(adj, t, v)
  {
    forall v | v in t.dist
      ensures Placed(t, d, {}, v)
    {
      assert Placed(s, d, {cur.key}, v);
    }
    forall v | v in t.done
      ensures Scanned(adj, t, v)
    {
      assert Scanned(adj, s, v);
    }
  }

  /** When every queued principal is deeper than d, what d + 1 hops reach has been seen. */
  lemma NextDepthKnown(adj: Edges, start: string, s: Search, d: nat)
    requires Known(adj, start, s, d) && QueueOk(s.queue, d + 1)
    requires forall v {:trigger Placed(s, d, {}, v)} :: v in s.dist ==> Placed(s, d, {}, v)
    requires forall v {:trigger Scanned(adj, s, v)} :: v in s.done ==> Scanned(adj, s, v)
    requires forall i {:trigger Queued(adj, start, s, {}, s.queue[i])} :: 0 <= i < |s.queue| ==>
               Queued(adj, start, s, {}, s.queue[i])
    ensures Known(adj, start, s, d + 1)
  {
    forall v | Reaches(adj, start, v, d + 1)
      ensures v in s.dist && s.dist[v] <= d + 1
    {
      var u, e :| Reaches(adj, start, u, d) && e in Out(adj, u) && e.to == v;
      assert Placed(s, d, {}, u);
      NearIsDone(adj, start, s, d + 1, {}, u);
      assert Scanned(adj, s, u);
      assert Placed(s, d, {}, v);
    }
  }

  /** A principal nearer than anything queued or being scanned is scanned. */
  lemma NearIsDone(adj: Edges, start: string, s: Search, d: nat, extra: set<string>, u: string)
    requires u in s.dist && s.dist[u] < d && (u in s.done || u in extra || InQueue(s.queue, u))
    requires (forall v :: v in extra ==> v in s.dist && s.dist[v] >= d) && QueueOk(s.queue, d)
    requires forall i {:trigger Queued(adj, start, s, extra, s.queue[i])} :: 0 <= i < |s.queue| ==>
               Queued(adj, start, s, extra, s.queue[i])
    ensures u in s.done
  {
    forall i | 0 <= i < |s.queue|
      ensures s.queue[i].key != u
    {
      assert Queued(adj, start, s, extra, s.queue[i]);
    }
  }

  /** A walk that escalates needs more hops than the depth being scanned. */
  lemma NoShorterEscalation(adj: Edges, start: string, s: Search, d: nat, cur: Item, w: seq<Edge>)
    requires Scanning(adj, start, s, d, cur) && Escalates(adj, start, w)
    ensures |w| > d
  {
    var k, u, e := LastStep(adj, start, w);
    if k < d {
      assert Known(adj, start, s, k);
      assert Placed(s, d, {cur.key}, u);
      assert !Scanned(adj, s, u);
      NearIsDone(adj, start, s, d, {cur.key}, u);
    }
  }

  /** With an empty queue, the principals seen are all that can be reached. */
  lemma {:induction false} ExhaustedIsClosed(adj: Edges, start: string, s: Search, d: nat, v: string, n: nat)
    requires Frontier(adj, start, s, d, {}) && s.queue == [] && Reaches(adj, start, v, n)
    ensures v in s.done
    decreases n
  {
    if n > 0 {
      var u, e :| Reaches(adj, start, u, n - 1) && e in Out(adj, u) && e.to == v;
      ExhaustedIsClosed(adj, start, s, d, u, n - 1);
      assert Scanned(adj, s, u);
    }
    assert Placed(s, d, {}, v);
  }

  lemma ExhaustedHasNoEscalation(adj: Edges, start: string, s: Search, d: nat, w: seq<Edge>)
    requires Frontier(adj, start, s, d, {}) && s.queue == []
    ensures !Escalates(adj, start, w)
  {
    if Escalates(adj, start, w) {
      var k, u, e := LastStep(adj, start, w);
      assert !Scanned(adj, s, u);
      ExhaustedIsClosed(adj, start, s, d, u, k);
    }
  }

  /** Every principal an edge map mentions, and the start. */
  ghost function Universe(adj: Edges, start: string): set<string>
  {
    {start} + set k, e | k in adj && e in adj[k] :: e.to
  }

  lemma OutInUniverse(adj: Edges, start: string, k: string, e: Edge)
    requires e in Out(adj, k)
    ensures e.to in Universe(adj, start)
  {}

  /** bfsToTarget: the nearest target and the hops to it, or no hop and the empty name when
      nothing escalates. */
  method BfsToTarget(adj: Edges, start: string) returns (path: seq<Edge>, target: string)
    ensures target == "" ==> path == [] && forall w :: !Escalates(adj, start, w)
    ensures target != "" ==> Escalates(adj, start, path) && path[|path| - 1].to == target
    ensures target != "" ==> forall w :: Escalates(adj, start, w) ==> |path| <= |w|
  {
    var visited := {start};
    var queue := [Item(start, [])];
    ghost var s := Search(map[start := 0], {}, queue);
    ghost var d := 0;
    FrontierStarts(adj, start);
    while queue != []
      invariant s.queue == queue && visited == s.dist.Keys <= Universe(adj, start)
      invariant Frontier(adj, start, s, d, {}) && d == NextDepth(queue, d)
      decreases Universe(adj, start) - s.done
    {
      var cur := queue[0];
      queue := queue[1..];
      var hit;
      ghost var t;
      visited, queue, hit, t := ScanEdges(adj, start, visited, queue, cur, s, d);
      if hit.Some? {
        path, target := cur.path + [hit.value], hit.value.to;
        EscalatesFirst(adj, start, t, d, cur, hit.value);
        return;
      }
      s := t.(done := t.done + {cur.key});
      FinishKeeps(adj, start, t, d, cur, s, NextDepth(queue, d));
      d := NextDepth(queue, d);
    }
    forall w
      ensures !Escalates(adj, start, w)
    {
      ExhaustedHasNoEscalation(adj, start, s, d, w);
    }
    path, target := [], "";
  }

  /** The inner loop of the search: cur's edges up to the first that hits a target. */
  method ScanEdges(adj: Edges, start: string, visited0: set<string>, queue0: seq<Item>, cur: Item,
                   ghost s0: Search, ghost d: nat)
    returns (visited: set<string>, queue: seq<Item>, hit: Option<Edge>, ghost s: Search)
    requires Frontier(adj, start, s0, d, {}) && s0.queue == [cur] + queue0 && |cur.path| == d
    requires visited0 == s0.dist.Keys <= Universe(adj, start)
    ensures Scanning(adj, start, s, d, cur) && s.done == s0.done
    ensures s.queue == queue && visited == s.dist.Keys <= Universe(adj, start)
    ensures hit.Some? ==> hit.value in Out(adj, cur.key) && IsTarget(hit.value.to)
    ensures hit.None? ==> Scanned(adj, s, cur.key)
  {
    visited, queue, hit := visited0, queue0, None;
    PopScans(adj, start, s0, d);
    s := s0.(queue := queue0);
    assert s0.queue[1..] == queue0;
    var edges := Out(adj, cur.key);
    for i := 0 to |edges|
      invariant s.queue == queue && visited == s.dist.Keys <= Universe(adj, start) && s.done == s0.done
      invariant Scanning(adj, start, s, d, cur)
      invariant ScannedTo(edges, i, s)
    {
      var e := edges[i];
      if IsTarget(e.to) {
        hit := Some(e);
        return;
      }
      DiscoverKeeps(adj, start, s, d, cur, e);
      DiscoverScans(edges, i, s, cur);
      OutInUniverse(adj, start, cur.key, e);
      s := Discover(s, cur, e);
      if e.to !in visited {
        visited := visited + {e.to};
        queue := queue + [Item(e.to, cur.path + [e])];
      }
    }
  }

  /** The first target hit closes a shortest escalation. */
  lemma EscalatesFirst(adj: Edges, start: string, s: Search, d: nat, cur: Item, e: Edge)
    requires Scanning(adj, start, s, d, cur) && e in Out(adj, cur.key) && IsTarget(e.to)
    ensures Escalates(adj, start, cur.path + [e])
    ensures forall w :: Escalates(adj, start, w) ==> |cur.path + [e]| <= |w|
  {
    ExtendWalk(adj, start, cur, e);
    forall w | Escalates(adj, start, w)
      ensures |cur.path + [e]| <= |w|
    {
      NoShorterEscalation(adj, start, s, d, cur, w);
    }
  }

  // ----- Blast radius -----

  /** v can be reached without passing a target. */
  ghost predicate Reachable(adj: Edges, start: string, v: string)
  {
    exists n: nat :: Reaches(adj, start, v, n)
  }

  /** Some reachable principal has an edge to the target t. */
  ghost predicate Hits(adj: Edges, start: string, t: string)
  {
    exists v, e :: Reachable(adj, start, v) && e in Out(adj, v) && e.to == t
  }

  /** The principals reachable from start, itself included. */
  ghost function Radius(adj: Edges, start: string): set<string>
  {
    set v | v in Universe(adj, start) && Reachable(adj, start, v)
  }

  lemma ReachesInUniverse(adj: Edges, start: string, v: string, n: nat)
    requires Reaches(adj, start, v, n)
    ensures v in Universe(adj, start)
    decreases n
  {
    if n > 0 {
      var u, e :| Reaches(adj, start, u, n - 1) && e in Out(adj, u) && e.to == v;
      OutInUniverse(adj, start, u, e);
    }
  }

  function PrettyTarget(hits: set<string>): string
  {
    if CLUSTER_ADMIN in hits then "cluster-admin" else if NODE_ROOT in hits then "node-root" else ""
  }

  /** The edges of v lead to seen principals or to targets noted. */
  ghost predicate Noted(adj: Edges, v: string, visited: set<string>, hits: set<string>)
  {
    forall e :: e in Out(adj, v) ==> e.to in (if IsTarget(e.to) then hits else visited)
  }

  lemma {:induction false} ClosedHoldsReachable(adj: Edges, start: string, visited: set<string>, hits: set<string>,
                                                  v: string, n: nat)
    requires start in visited && forall u :: u in visited ==> Noted(adj, u, visited, hits)
    requires Reaches(adj, start, v, n)
    ensures v in visited
    decreases n
  {
    if n > 0 {
      var u, e :| Reaches(adj, start, u, n - 1) && e in Out(adj, u) && e.to == v;
      ClosedHoldsReachable(adj, start, visited, hits, u, n - 1);
      assert Noted(adj, u, visited, hits);
    }
  }

  lemma ReachableOneMore(adj: Edges, start: string, u: string, e: Edge)
    requires Reachable(adj, start, u) && e in Out(adj, u) && !IsTarget(e.to)
    ensures Reachable(adj, start, e.to)
  {
    var n: nat :| Reaches(adj, start, u, n);
    ReachesOneMore(adj, start, u, n, e);
  }

  /** What a complete scan has seen is exactly what can be reached and hit. */
  lemma CompleteScan(adj: Edges, start: string, visited: set<string>, hits: set<string>)
    requires start in visited && forall u :: u in visited ==> Noted(adj, u, visited, hits)
    requires forall v :: v in visited ==> Reachable(adj, start, v)
    requires forall t :: t in hits ==> IsTarget(t) && Hits(adj, start, t)
    ensures visited == Radius(adj, start)
    ensures forall t :: IsTarget(t) ==> (t in hits <==> Hits(adj, start, t))
  {
    forall v
      ensures v in visited <==> v in Radius(adj, start)
    {
      if Reachable(adj, start, v) {
        var n: nat :| Reaches(adj, start, v, n);
        ReachesInUniverse(adj, start, v, n);
        ClosedHoldsReachable(adj, start, visited, hits, v, n);
      }
    }
    forall t | IsTarget(t) && Hits(adj, start, t)
      ensures t in hits
    {
      var v, e :| Reachable(adj, start, v) && e in Out(adj, v) && e.to == t;
      var n: nat :| Reaches(adj, start, v, n);
      ClosedHoldsReachable(adj, start, visited, hits, v, n);
      assert Noted(adj, v, visited, hits);
    }
  }

  /** What the blast-radius scan knows: principals seen, those scanned, targets noted, queue. */
  datatype Scan = Scan(visited: set<string>, done: set<string>, hits: set<string>, queue: seq<string>)

  ghost predicate Sound(adj: Edges, start: string, s: Scan)
  {
    && start in s.visited && s.visited <= Universe(adj, start) && s.done <= s.visited
    && (forall v :: v in s.visited ==> Reachable(adj, start, v))
    && (forall t :: t in s.hits ==> IsTarget(t) && Hits(adj, start, t))
  }

  /** Everything seen is scanned, being scanned, or queued once. */
  ghost predicate Covered(adj: Edges, s: Scan, extra: set<string>)
  {
    && (forall v :: v in s.visited ==> v in s.done || v in extra || v in s.queue)
    && (forall v :: v in s.queue ==> v in s.visited && v !in s.done && v !in extra)
    && (forall i, j :: 0 <= i < j < |s.queue| ==> s.queue[i] != s.queue[j])
    && (forall v {:trigger Noted(adj, v, s.visited, s.hits)} :: v in s.done ==> Noted(adj, v, s.visited, s.hits))
  }

  function Note(s: Scan, e: Edge): Scan
  {
    if IsTarget(e.to) then s.(hits := s.hits + {e.to})
    else if e.to in s.visited then s
    else s.(visited := s.visited + {e.to}, queue := s.queue + [e.to])
  }

  lemma NoteKeepsSound(adj: Edges, start: string, s: Scan, cur: string, e: Edge)
    requires Sound(adj, start, s) && cur in s.visited && e in Out(adj, cur)
    ensures Sound(adj, start, Note(s, e))
  {
    assert Reachable(adj, start, cur);
    if IsTarget(e.to) {
      assert Hits(adj, start, e.to);
    } else {
      ReachableOneMore(adj, start, cur, e);
      OutInUniverse(adj, start, cur, e);
    }
  }

  lemma NoteKeepsCovered(adj: Edges, s: Scan, cur: string, e: Edge)
    requires Covered(adj, s, {cur}) && cur in s.visited && s.done <= s.visited
    ensures Covered(adj, Note(s, e), {cur})
  {
    var t := Note(s, e);
    forall v | v in s.done
      ensures Noted(adj, v, t.visited, t.hits)
    {
      assert Noted(adj, v, s.visited, s.hits);
    }
    if t.queue != s.queue {
      assert forall v :: v in t.queue <==> v in s.queue || v == e.to;
    }
  }

  /** The first i edges lead to seen principals or to targets noted. */
  ghost predicate NotedTo(edges: seq<Edge>, i: nat, s: Scan)
    requires i <= |edges|
  {
    forall j :: 0 <= j < i ==> edges[j].to in (if IsTarget(edges[j].to) then s.hits else s.visited)
  }

  lemma NoteAdvances(edges: seq<Edge>, i: nat, s: Scan)
    requires i < |edges| && NotedTo(edges, i, s)
    ensures NotedTo(edges, i + 1, Note(s, edges[i]))
  {}

  lemma PopCovers(adj: Edges, s: Scan)
    requires Covered(adj, s, {}) && s.queue != []
    ensures Covered(adj, s.(queue := s.queue[1..]), {s.queue[0]})
  {
    assert s.queue == [s.queue[0]] + s.queue[1..];
  }

  lemma DoneCovers(adj: Edges, s: Scan, cur: string)
    requires Covered(adj, s, {cur}) && NotedTo(Out(adj, cur), |Out(adj, cur)|, s)
    ensures Covered(adj, s.(done := s.done + {cur}), {})
  {
    assert Noted(adj, cur, s.visited, s.hits);
  }

  /** The terminal reported and the number of principals found for what has been seen. */
  ghost predicate Tallied(start: string, s: Scan, reachesTarget: string, reachCount: nat)
  {
    reachesTarget == PrettyTarget(s.hits) && reachCount == |s.visited - {start}|
  }

  lemma TallyOneMore(start: string, visited: set<string>, v: string)
    requires start in visited && v !in visited
    ensures |visited + {v} - {start}| == |visited - {start}| + 1
  {
    assert visited + {v} - {start} == (visited - {start}) + {v};
  }

  /** scoreIdentity's reachability part: the terminal reported and the blast radius. */
  method ScoreIdentity(adj: Edges, start: string) returns (reachesTarget: string, reachCount: nat)
    ensures reachesTarget == "cluster-admin" <==> Hits(adj, start, CLUSTER_ADMIN)
    ensures reachesTarget == "node-root" <==> Hits(adj, start, NODE_ROOT) && !Hits(adj, start, CLUSTER_ADMIN)
    ensures reachesTarget == "" <==> !Hits(adj, start, NODE_ROOT) && !Hits(adj, start, CLUSTER_ADMIN)
    ensures reachCount == |Radius(adj, start) - {start}| + (if reachesTarget == "" then 0 else 1)
  {
    reachesTarget, reachCount := "", 0;
    var visited := {start};
    var queue := [start];
    ghost var s := Scan(visited, {}, {}, queue);
    assert Reaches(adj, start, start, 0);
    while queue != []
      invariant s.visited == visited && s.queue == queue
      invariant Sound(adj, start, s) && Covered(adj, s, {}) && Tallied(start, s, reachesTarget, reachCount)
      decreases Universe(adj, start) - s.done
    {
      var cur := queue[0];
      assert cur in s.queue;
      PopCovers(adj, s);
      queue := queue[1..];
      s := s.(queue := queue);
      visited, queue, reachesTarget, reachCount, s :=
        NoteEdges(adj, start, visited, queue, reachesTarget, reachCount, cur, s);
      DoneCovers(adj, s, cur);
      s := s.(done := s.done + {cur});
    }
    ScanIsComplete(adj, start, s);
    if reachesTarget != "" {
      reachCount := reachCount + 1;
    }
  }

  /** The inner loop of the scan: all edges of cur. */
  method NoteEdges(adj: Edges, start: string, visited0: set<string>, queue0: seq<string>,
                   reaches0: string, count0: nat, cur: string, ghost s0: Scan)
    returns (visited: set<string>, queue: seq<string>, reachesTarget: string, reachCount: nat, ghost s: Scan)
    requires Noting(adj, start, s0, cur, visited0, queue0, reaches0, count0)
    ensures Noting(adj, start, s, cur, visited, queue, reachesTarget, reachCount) && s.done == s0.done
    ensures NotedTo(Out(adj, cur), |Out(adj, cur)|, s)
  {
    visited, queue, reachesTarget, reachCount, s := visited0, queue0, reaches0, count0, s0;
    var edges := Out(adj, cur);
    for i := 0 to |edges|
      invariant Noting(adj, start, s, cur, visited, queue, reachesTarget, reachCount) && s.done == s0.done
      invariant NotedTo(edges, i, s)
    {
      NoteAdvances(edges, i, s);
      visited, queue, reachesTarget, reachCount, s :=
        NoteEdge(adj, start, visited, queue, reachesTarget, reachCount, cur, edges[i], s);
    }
  }

  /** The variables of the loop agree with what was scanned. */
  ghost predicate Noting(adj: Edges, start: string, s: Scan, cur: string, visited: set<string>, queue: seq<string>,
                         reaches: string, count: nat)
  {
    && s.visited == visited && s.queue == queue && cur in visited
    && Sound(adj, start, s) && Covered(adj, s, {cur}) && Tallied(start, s, reaches, count)
  }

  method NoteEdge(adj: Edges, start: string, visited0: set<string>, queue0: seq<string>,
                  reaches0: string, count0: nat, cur: string, e: Edge, ghost s0: Scan)
    returns (visited: set<string>, queue: seq<string>, reachesTarget: string, reachCount: nat, ghost s: Scan)
    requires Noting(adj, start, s0, cur, visited0, queue0, reaches0, count0) && e in Out(adj, cur)
    ensures s == Note(s0, e) && s.done == s0.done
    ensures Noting(adj, start, s, cur, visited, queue, reachesTarget, reachCount)
  {
    visited, queue, reachesTarget, reachCount := visited0, queue0, reaches0, count0;
    NoteKeepsSound(adj, start, s0, cur, e);
    NoteKeepsCovered(adj, s0, cur, e);
    s := Note(s0, e);
    if IsTarget(e.to) {
      if reachesTarget == "" || e.to == CLUSTER_ADMIN {
        reachesTarget := if e.to == CLUSTER_ADMIN then "cluster-admin" else "node-root";
      }
    } else if e.to !in visited {
      TallyOneMore(start, visited, e.to);
      visited := visited + {e.to};
      reachCount := reachCount + 1;
      queue := queue + [e.to];
    }
  }

  lemma ScanIsComplete(adj: Edges, start: string, s: Scan)
    requires Sound(adj, start, s) && Covered(adj, s, {}) && s.queue == []
    ensures s.visited == Radius(adj, start)
    ensures CLUSTER_ADMIN in s.hits <==> Hits(adj, start, CLUSTER_ADMIN)
    ensures NODE_ROOT in s.hits <==> Hits(adj, start, NODE_ROOT)
  {
    CompleteScan(adj, start, s.visited, s.hits);
  }

  /** The two searches agree: a path to some target exists exactly when the blast radius
      touches one, so one reports a target exactly when the other does. */
  lemma SearchesAgree(adj: Edges, start: string)
    ensures (exists w :: Escalates(adj, start, w)) <==> Hits(adj, start, CLUSTER_ADMIN) || Hits(adj, start, NODE_ROOT)
  {
    forall w | Escalates(adj, start, w)
      ensures Hits(adj, start, CLUSTER_ADMIN) || Hits(adj, start, NODE_ROOT)
    {
      var k, u, e := LastStep(adj, start, w);
      assert Reachable(adj, start, u);
    }
    forall t | IsTarget(t) && Hits(adj, start, t)
      ensures exists w :: Escalates(adj, start, w)
    {
      var v, e :| Reachable(adj, start, v) && e in Out(adj, v) && e.to == t;
      var n: nat :| Reaches(adj, start, v, n);
      var p := ReachesByWalk(adj, start, v, n);
      ExtendWalk(adj, start, Item(v, p), e);
      assert Escalates(adj, start, p + [e]);
    }
  }
}
